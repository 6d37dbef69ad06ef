/**
  The streaming SHA-256 buffer of qrx-core/src/apps/qrx_upscaler_ai.c, over any
  block function, against the padding of section 5.1.1 of FIPS 180-4.
 */
module Sha256Stream {

  const BLOCK: nat := 64
  const TWO64: nat := 0x1_0000_0000_0000_0000

  type Byte = x: int | 0 <= x < 256
  type Word = x: int | 0 <= x < 0x1_0000_0000
  type State = h: seq<Word> | |h| == 8 witness [0, 0, 0, 0, 0, 0, 0, 0]

  /** sblk: the state after absorbing one block of 64 bytes. */
  type BlockFunction = (State, seq<Byte>) -> State

  const INITIAL: State := [0x6a09e667, 0xbb67ae85, 0x3c6ef372, 0xa54ff53a,
                           0x510e527f, 0x9b05688c, 0x1f83d9ab, 0x5be0cd19]

  /** The block function folded over whole blocks, first block first. */
  ghost function Fold(f: BlockFunction, m: seq<Byte>): State
    requires |m| % BLOCK == 0
  {
    if m == [] then INITIAL
    else
      assert (|m| - BLOCK) % BLOCK == 0;
      f(Fold(f, m[..|m| - BLOCK]), m[|m| - BLOCK..])
  }

  lemma FoldNothing(f: BlockFunction)
    ensures Fold(f, []) == INITIAL
  {
  }

  lemma FoldSnoc(f: BlockFunction, m: seq<Byte>, block: seq<Byte>)
    requires |m| % BLOCK == 0 && |block| == BLOCK
    ensures Fold(f, m + block) == f(Fold(f, m), block)
  {
    assert (m + block)[..|m|] == m && (m + block)[|m|..] == block;
  }

  // ----- padding -----

  /** v >> (8 * i) */
  function Shift(v: nat, i: nat): nat { if i == 0 then v else Shift(v, i - 1) / 256 }

  function ByteAt(v: nat, i: nat): Byte { Shift(v, i) % 256 }

  function Zeros(k: nat): (r: seq<Byte>)
    ensures |r| == k && forall i :: 0 <= i < k ==> r[i] == 0
  {
    seq(k, _ => 0)
  }

  /** A 64-bit integer, most significant byte first. */
  function BigEndian64(v: nat): (r: seq<Byte>)
    ensures |r| == 8
    ensures forall i :: 0 <= i < 8 ==> r[i] == ByteAt(v, 7 - i)
  {
    seq(8, i requires 0 <= i < 8 => ByteAt(v, 7 - i))
  }

  /** The smallest number of zero bytes that leaves eight bytes to the end of a block. */
  function ZeroCount(length: nat): nat { (55 - length) % BLOCK }

  lemma ZeroCountIsLeast(length: nat, k: nat)
    ensures (length + 1 + ZeroCount(length)) % BLOCK == 56
    ensures (length + 1 + k) % BLOCK == 56 ==> ZeroCount(length) <= k
  {
  }

  lemma WholeBlocks(length: nat)
    ensures (length + 1 + ZeroCount(length) + 8) % BLOCK == 0
  {
    ZeroCountIsLeast(length, 0);
  }

  /** Section 5.1.1, with the bit length reduced to the 64 bits it is stored in. */
  function Padded(m: seq<Byte>): (r: seq<Byte>)
    ensures |r| % BLOCK == 0
  {
    WholeBlocks(|m|);
    m + [0x80] + Zeros(ZeroCount(|m|)) + BigEndian64(8 * |m| % TWO64)
  }

  ghost function Hash(f: BlockFunction, m: seq<Byte>): State { Fold(f, Padded(m)) }

  lemma {:induction false} SameFrom(a: nat, b: nat, i: nat)
    requires Shift(a, 8) == Shift(b, 8) && i <= 8
    requires forall k :: 0 <= k < 8 ==> ByteAt(a, k) == ByteAt(b, k)
    ensures Shift(a, i) == Shift(b, i)
    decreases 8 - i
  {
    if i < 8 {
      SameFrom(a, b, i + 1);
      assert ByteAt(a, i) == ByteAt(b, i);
      assert Shift(a, i) == 256 * Shift(a, i + 1) + ByteAt(a, i);
      assert Shift(b, i) == 256 * Shift(b, i + 1) + ByteAt(b, i);
    }
  }

  lemma SmallShifts(v: nat)
    requires v < TWO64
    ensures Shift(v, 8) == 0
  {
    assert Shift(v, 1) < 0x100_0000_0000_0000;
    assert Shift(v, 2) < 0x1_0000_0000_0000;
    assert Shift(v, 3) < 0x100_0000_0000;
    assert Shift(v, 4) < 0x1_0000_0000;
    assert Shift(v, 5) < 0x100_0000;
    assert Shift(v, 6) < 0x1_0000;
    assert Shift(v, 7) < 0x100;
  }

  /** Eight bytes name a 64-bit value. */
  lemma BytesDetermine(a: nat, b: nat)
    requires a < TWO64 && b < TWO64 && BigEndian64(a) == BigEndian64(b)
    ensures a == b
  {
    SmallShifts(a);
    SmallShifts(b);
    forall k | 0 <= k < 8 ensures ByteAt(a, k) == ByteAt(b, k) {
      assert BigEndian64(a)[7 - k] == BigEndian64(b)[7 - k];
    }
    SameFrom(a, b, 0);
  }

  lemma PaddedParts(m: seq<Byte>)
    requires 8 * |m| < TWO64
    ensures |Padded(m)| > |m| + 8
    ensures Padded(m)[..|m|] == m && Padded(m)[|Padded(m)| - 8..] == BigEndian64(8 * |m|)
  {
    hide BigEndian64, ZeroCount;
    Ends(m, [0x80] + Zeros(ZeroCount(|m|)), BigEndian64(8 * |m| % TWO64));
    assert Padded(m) == m + ([0x80] + Zeros(ZeroCount(|m|))) + BigEndian64(8 * |m| % TWO64);
  }

  lemma Ends(a: seq<Byte>, b: seq<Byte>, c: seq<Byte>)
    ensures (a + b + c)[..|a|] == a && (a + b + c)[|a| + |b|..] == c
  {
  }

  /** No two messages shorter than 2^61 bytes have the same padding. */
  lemma PaddingInjective(a: seq<Byte>, b: seq<Byte>)
    requires 8 * |a| < TWO64 && 8 * |b| < TWO64
    requires Padded(a) == Padded(b)
    ensures a == b
  {
    PaddedParts(a);
    PaddedParts(b);
    hide Padded;
    BytesDetermine(8 * |a|, 8 * |b|);
  }

  // ----- the stream -----

  function Concatenated(chunks: seq<seq<Byte>>): seq<Byte> {
    if chunks == [] then [] else Concatenated(chunks[..|chunks| - 1]) + chunks[|chunks| - 1]
  }

  class S256 {
    const f: BlockFunction
    const b: array<Byte>
    var h: State
    var n: nat
    var z: nat
    ghost var message: seq<Byte>

    ghost predicate Valid()
      reads this, b
    {
      Absorbing(message) && z < BLOCK && n == 8 * |message| % TWO64
    }

    /** Whole blocks are folded into h, the rest is buffered; the buffer may be full. */
    ghost predicate Absorbing(done: seq<Byte>)
      reads this`h, this`z, b
    {
      && b.Length == BLOCK && z <= BLOCK && z <= |done| && (|done| - z) % BLOCK == 0
      && b[..z] == done[|done| - z..]
      && h == Fold(f, done[..|done| - z])
    }

    constructor (f: BlockFunction)
      ensures Valid() && fresh(b) && message == [] && this.f == f
    {
      this.f := f;
      b := new Byte[BLOCK];
      h, n, z, message := INITIAL, 0, 0, [];
      new;
      FoldNothing(f);
      hide Fold;
      assert message[..0] == [] && b[..0] == [];
      assert h == INITIAL;
      assert h == Fold(this.f, message[..|message| - z]);
      assert b[..z] == message[|message| - z..];
      assert (|message| - z) % BLOCK == 0;
      assert n == 8 * |message| % TWO64;
    }

    /** Run the block function when the buffer is full. */
    method Flush(ghost done: seq<Byte>)
      requires Absorbing(done)
      modifies this`h, this`z
      ensures Absorbing(done) && z == if old(z) == BLOCK then 0 else old(z)
    {
      if z == BLOCK {
        ghost var whole := done[..|done| - BLOCK];
        FoldSnoc(f, whole, b[..]);
        assert b[..z] == b[..] && whole + b[..] == done;
        h := f(h, b[..]);
        z := 0;
        assert done[..|done| - 0] == done;
      }
    }

    /** memcpy of part of the input behind what is buffered. */
    method Fill(p: seq<Byte>, from: nat, k: nat, ghost done: seq<Byte>)
      requires Absorbing(done) && from + k <= |p| && z + k <= BLOCK
      modifies this`z, b
      ensures Absorbing(done + p[from..from + k]) && z == old(z) + k
    {
      for i := 0 to k
        invariant b[..z + i] == old(b[..z]) + p[from..from + i]
        modifies b
      {
        b[z + i] := p[from + i];
      }
      ghost var more := done + p[from..from + k];
      assert more[..|more| - (z + k)] == done[..|done| - z];
      z := z + k;
      assert b[..z] == more[|more| - z..];
    }

    method Update(p: seq<Byte>)
      requires Valid()
      modifies this, b
      ensures Valid() && message == old(message) + p
    {
      hide Absorbing;
      BitCount(|message|, |p|);
      n := (n + 8 * |p|) % TWO64;
      ghost var done := message;
      var at := 0;
      while at < |p|
        invariant 0 <= at <= |p|
        invariant Absorbing(done) && z < BLOCK && done == message + p[..at]
        modifies this`h, this`z, b
      {
        var k := BLOCK - z;
        if k > |p| - at { k := |p| - at; }
        Fill(p, at, k, done);
        assert p[..at] + p[at..at + k] == p[..at + k];
        done := done + p[at..at + k];
        at := at + k;
        Flush(done);
      }
      assert p[..at] == p;
      message := done;
    }

    /** The digest of everything absorbed, as 32 bytes. */
    method Final() returns (out: seq<Byte>)
      requires Valid()
      modifies this, b
      ensures out == Serialised(Hash(f, old(message)))
    {
      hide Absorbing, ZeroCount;
      ghost var m := message;
      PadToLength();
      ghost var done := m + [0x80] + Zeros(ZeroCount(|m|));
      PutLength(done);
      ghost var padded := done + BigEndian64(n);
      Flush(padded);
      AllFolded(padded);
      out := Serialised(h);
    }

    /** The marker bit and the zero bytes, through an extra block when fewer than eight bytes are left. */
    method PadToLength()
      requires Valid()
      modifies this`h, this`z, b
      ensures Absorbing(message + [0x80] + Zeros(ZeroCount(|message|))) && z == 56
    {
      BufferedIs(message);
      ZeroRuns(z, |message|);
      hide Absorbing, ZeroCount;
      ghost var z0 := z;
      ghost var marked := message + [0x80];
      Put(0x80, message);
      if z > 56 {
        PutZeros(BLOCK, marked);
        ghost var filled := marked + Zeros(BLOCK - 1 - z0);
        Flush(filled);
        PutZeros(56, filled);
        ZerosJoin(marked, BLOCK - 1 - z0, 56);
      } else {
        PutZeros(56, marked);
      }
    }

    lemma AllFolded(done: seq<Byte>)
      requires Absorbing(done) && z == 0
      ensures |done| % BLOCK == 0 && h == Fold(f, done)
    {
      assert done[..|done| - 0] == done;
    }

    lemma BufferedIs(done: seq<Byte>)
      requires Absorbing(done) && z < BLOCK
      ensures z == |done| % BLOCK
    {
      hide Fold;
      Residue(|done|, z);
    }

    method PutLength(ghost done: seq<Byte>)
      requires Absorbing(done) && z == 56
      modifies this`z, b
      ensures Absorbing(done + BigEndian64(n)) && z == BLOCK
    {
      hide Absorbing, ByteAt;
      ghost var length := BigEndian64(n);
      assert done + length[..0] == done;
      for i := 0 to 8
        invariant Absorbing(done + length[..i]) && z == 56 + i
      {
        assert done + length[..i] + [length[i]] == done + length[..i + 1];
        Put(ByteAt(n, 7 - i), done + length[..i]);
      }
      assert length[..8] == length;
    }

    method Put(x: Byte, ghost done: seq<Byte>)
      requires Absorbing(done) && z < BLOCK
      modifies this`z, b
      ensures Absorbing(done + [x]) && z == old(z) + 1
    {
      b[z] := x;
      z := z + 1;
      ghost var more := done + [x];
      assert more[..|more| - z] == done[..|done| - (z - 1)];
      assert b[..z] == more[|more| - z..];
    }

    method PutZeros(upTo: nat, ghost done: seq<Byte>)
      requires Absorbing(done) && z <= upTo <= BLOCK
      modifies this`z, b
      ensures Absorbing(done + Zeros(upTo - old(z))) && z == upTo
    {
      hide Absorbing;
      ghost var z0 := z;
      assert done + Zeros(0) == done;
      while z < upTo
        invariant z0 <= z <= upTo && Absorbing(done + Zeros(z - z0))
      {
        assert done + Zeros(z - z0) + [0] == done + Zeros(z + 1 - z0);
        Put(0, done + Zeros(z - z0));
      }
    }
  }

  lemma ZerosJoin(m: seq<Byte>, a: nat, b: nat)
    ensures m + Zeros(a) + Zeros(b) == m + Zeros(a + b)
  {
    assert Zeros(a) + Zeros(b) == Zeros(a + b);
    assert m + Zeros(a) + Zeros(b) == m + (Zeros(a) + Zeros(b));
  }

  /** How many zero bytes the two loops write. */
  lemma ZeroRuns(z: nat, length: nat)
    requires z < BLOCK && length % BLOCK == z
    ensures ZeroCount(length) == if z + 1 > 56 then (BLOCK - 1 - z) + 56 else 55 - z
  {
  }

  lemma Residue(a: nat, z: nat)
    requires z < BLOCK && z <= a && (a - z) % BLOCK == 0
    ensures a % BLOCK == z
  {
  }

  lemma BitCount(a: nat, b: nat)
    ensures (8 * a % TWO64 + 8 * b) % TWO64 == 8 * (a + b) % TWO64
  {
  }

  /** The state words, most significant byte first. */
  function Serialised(h: State): (r: seq<Byte>)
    ensures |r| == 32
  {
    seq(32, i requires 0 <= i < 32 => ByteAt(h[i / 4], 3 - i % 4))
  }

  /** file_sha256 over the chunks the file is read in: only their concatenation matters. */
  method HashChunks(f: BlockFunction, chunks: seq<seq<Byte>>) returns (out: seq<Byte>)
    ensures out == Serialised(Hash(f, Concatenated(chunks)))
  {
    var s := new S256(f);
    for i := 0 to |chunks|
      invariant s.Valid() && fresh(s) && fresh(s.b) && s.f == f
      invariant s.message == Concatenated(chunks[..i])
    {
      assert chunks[..i + 1][..i] == chunks[..i];
      s.Update(chunks[i]);
    }
    assert chunks[..|chunks|] == chunks;
    out := s.Final();
  }
}
