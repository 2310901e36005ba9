/** SHA-256 as FIPS 180-4 defines it (sections 3.2, 4.1.2, 5.1.1, 5.3.3 and 6.2.2), and the incremental hasher of
    core/sha256.cpp, which is proved to compute it whatever the pieces a message arrives in. */
module Sha256 {
  import opened Outcomes
  import opened Words

  type Block = s: seq<u8> | |s| == 64 witness seq(64, _ => 0)
  type Hash = s: seq<u32> | |s| == 8 witness seq(8, _ => 0)

  // ----- Sections 3.2 and 4.1.2: functions -----

  function Rotr(x: u32, n: nat): u32
    requires 0 < n < 32
  {
    Or(Shr(x, n), Shl(x, 32 - n))
  }

  function Ch(x: u32, y: u32, z: u32): u32 {
    Xor(And(x, y), And(Not(x), z))
  }

  function Maj(x: u32, y: u32, z: u32): u32 {
    Xor(Xor(And(x, y), And(x, z)), And(y, z))
  }

  function BigSigma0(x: u32): u32 {
    Xor(Xor(Rotr(x, 2), Rotr(x, 13)), Rotr(x, 22))
  }

  function BigSigma1(x: u32): u32 {
    Xor(Xor(Rotr(x, 6), Rotr(x, 11)), Rotr(x, 25))
  }

  function SmallSigma0(x: u32): u32 {
    Xor(Xor(Rotr(x, 7), Rotr(x, 18)), Shr(x, 3))
  }

  function SmallSigma1(x: u32): u32 {
    Xor(Xor(Rotr(x, 17), Rotr(x, 19)), Shr(x, 10))
  }

  // ----- Sections 4.2.2 and 5.3.3: constants -----

  const K: seq<u32> := [
    0x428a2f98, 0x71374491, 0xb5c0fbcf, 0xe9b5dba5, 0x3956c25b, 0x59f111f1, 0x923f82a4, 0xab1c5ed5,
    0xd807aa98, 0x12835b01, 0x243185be, 0x550c7dc3, 0x72be5d74, 0x80deb1fe, 0x9bdc06a7, 0xc19bf174,
    0xe49b69c1, 0xefbe4786, 0x0fc19dc6, 0x240ca1cc, 0x2de92c6f, 0x4a7484aa, 0x5cb0a9dc, 0x76f988da,
    0x983e5152, 0xa831c66d, 0xb00327c8, 0xbf597fc7, 0xc6e00bf3, 0xd5a79147, 0x06ca6351, 0x14292967,
    0x27b70a85, 0x2e1b2138, 0x4d2c6dfc, 0x53380d13, 0x650a7354, 0x766a0abb, 0x81c2c92e, 0x92722c85,
    0xa2bfe8a1, 0xa81a664b, 0xc24b8b70, 0xc76c51a3, 0xd192e819, 0xd6990624, 0xf40e3585, 0x106aa070,
    0x19a4c116, 0x1e376c08, 0x2748774c, 0x34b0bcb5, 0x391c0cb3, 0x4ed8aa4a, 0x5b9cca4f, 0x682e6ff3,
    0x748f82ee, 0x78a5636f, 0x84c87814, 0x8cc70208, 0x90befffa, 0xa4506ceb, 0xbef9a3f7, 0xc67178f2]

  const INITIAL: Hash := [0x6a09e667, 0xbb67ae85, 0x3c6ef372, 0xa54ff53a, 0x510e527f, 0x9b05688c, 0x1f83d9ab, 0x5be0cd19]

  // ----- Section 5.1.1: padding -----

  /** The zero bytes between the mark and the length. */
  function ZeroBytes(length: nat): nat {
    (119 - length % 64) % 64
  }

  function Zeros(n: nat): (s: seq<u8>)
    ensures |s| == n
  {
    seq(n, _ => 0)
  }

  function Pow256(n: nat): (p: nat)
    ensures p > 0
  {
    if n == 0 then 1 else 256 * Pow256(n - 1)
  }

  function LengthByte(bits: nat, i: nat): u8 {
    bits / Pow256(i) % 256
  }

  /** The length in bits as eight bytes, most significant first. */
  function LengthBytes(bits: nat): (s: seq<u8>)
    ensures |s| == 8
  {
    seq(8, i requires 0 <= i < 8 => LengthByte(bits, 7 - i))
  }

  /** The standard is defined for messages shorter than 2^61 bytes; beyond that the 64-bit length wraps. */
  function BitLength(length: nat): nat {
    length * 8 % TWO64
  }

  function Padding(length: nat): seq<u8> {
    [0x80] + Zeros(ZeroBytes(length)) + LengthBytes(BitLength(length))
  }

  function Padded(message: seq<u8>): (s: seq<u8>)
    ensures |s| % 64 == 0
  {
    PaddingFillsBlock(|message|);
    message + Padding(|message|)
  }

  lemma PaddingFillsBlock(length: nat)
    ensures (length + |Padding(length)|) % 64 == 0
  {
    ZeroBytesIsLeast(length, 0);
    hide LengthBytes, ZeroBytes;
    var z := ZeroBytes(length);
    assert |Padding(length)| == 1 + z + 8;
    RemainderIs(length + 1 + z + 8, 64, (length + 1 + z) / 64 + 1, 0);
  }

  /** The number of zeros is the least that leaves room for exactly the length in the last block. */
  lemma ZeroBytesIsLeast(length: nat, z: nat)
    ensures (length + 1 + ZeroBytes(length)) % 64 == 56
    ensures (length + 1 + z) % 64 == 56 ==> ZeroBytes(length) <= z
  {
    var q, r, zeros := length / 64, length % 64, ZeroBytes(length);
    assert zeros == if r <= 55 then 55 - r else 119 - r;
    RemainderIs(length + 1 + zeros, 64, if r <= 55 then q else q + 1, 56);
    if z < zeros {
      RemainderIs(length + 1 + z, 64, if r + 1 + z < 64 then q else q + 1, if r + 1 + z < 64 then r + 1 + z else r + 1 + z - 64);
    }
  }

  // ----- Section 6.2.2: hash computation -----

  /** Four bytes as a word, most significant first. */
  function BigEndianWord(b0: u8, b1: u8, b2: u8, b3: u8): u32 {
    b0 as int * 0x100_0000 + b1 * 0x1_0000 + b2 * 0x100 + b3
  }

  /** The message schedule. */
  function W(block: Block, t: nat): u32
    requires t < 64
  {
    if t < 16 then BigEndianWord(block[4 * t], block[4 * t + 1], block[4 * t + 2], block[4 * t + 3])
    else Wrap(SmallSigma1(W(block, t - 2)) + W(block, t - 7) + SmallSigma0(W(block, t - 15)) + W(block, t - 16))
  }

  datatype Variables = Variables(a: u32, b: u32, c: u32, d: u32, e: u32, f: u32, g: u32, h: u32)

  function VariablesOf(s: Hash): Variables {
    Variables(s[0], s[1], s[2], s[3], s[4], s[5], s[6], s[7])
  }

  function Round(v: Variables, k: u32, w: u32): Variables {
    var t1 := Wrap(v.h + BigSigma1(v.e) + Ch(v.e, v.f, v.g) + k + w);
    var t2 := Wrap(BigSigma0(v.a) + Maj(v.a, v.b, v.c));
    Variables(Wrap(t1 + t2), v.a, v.b, v.c, Wrap(v.d + t1), v.e, v.f, v.g)
  }

  lemma ThereAre64Constants()
    ensures |K| == 64
  {
  }

  function Rounds(s: Hash, block: Block, t: nat): Variables
    requires t <= 64
  {
    ThereAre64Constants();
    if t == 0 then VariablesOf(s) else Round(Rounds(s, block, t - 1), K[t - 1], W(block, t - 1))
  }

  function Compressed(s: Hash, block: Block): Hash {
    ThereAre64Constants();
    Added(s, Rounds(s, block, |K|))
  }

  function Added(s: Hash, v: Variables): Hash {
    [Wrap(v.a + s[0]), Wrap(v.b + s[1]), Wrap(v.c + s[2]), Wrap(v.d + s[3]),
     Wrap(v.e + s[4]), Wrap(v.f + s[5]), Wrap(v.g + s[6]), Wrap(v.h + s[7])]
  }

  /** The intermediate hash value after all of the blocks. */
  function HashOfBlocks(bytes: seq<u8>): Hash
    requires |bytes| % 64 == 0
  {
    if bytes == [] then INITIAL else Compressed(HashOfBlocks(bytes[..|bytes| - 64]), bytes[|bytes| - 64..])
  }

  function WordBytes(w: u32): seq<u8> {
    [w / 0x100_0000, w / 0x1_0000 % 0x100, w / 0x100 % 0x100, w % 0x100]
  }

  function DigestOf(s: seq<u32>): (d: seq<u8>)
    ensures |d| == 4 * |s|
  {
    if s == [] then [] else DigestOf(s[..|s| - 1]) + WordBytes(s[|s| - 1])
  }

  /** The message digest of FIPS 180-4. */
  function Sha256Of(message: seq<u8>): seq<u8> {
    DigestOf(HashOfBlocks(Padded(message)))
  }

  // ----- The code's own arithmetic -----

  lemma WrapAdds(x: int, y: int)
    ensures Wrap(Wrap(x) + y) == Wrap(x + y)
  {
  }

  lemma Powers()
    ensures Pow2(8) == 0x100 && Pow2(16) == 0x1_0000 && Pow2(24) == 0x100_0000
  {
    assert Pow2(8) == 0x100;
    Pow2Adds(8, 8);
    Pow2Adds(8, 16);
  }

  lemma ByteShifts(b: u8, n: nat, p: int)
    requires Pow2(n) == p && 0 < p <= 0x100_0000
    ensures 0 <= b * p < TWO32 && Shl(b, n) == b * p
  {
    hide Pow2;
    MultipleOf(b, p);
    MultipleOf(0xFF - b, p);
    assert (0xFF - b) * p == 0xFF * p - b * p;
  }

  lemma BytesJoin(b0: u8, b1: u8, b2: u8, b3: u8)
    ensures Or(Or(Or(Shl(b0, 24), Shl(b1, 16)), Shl(b2, 8)), b3) == BigEndianWord(b0, b1, b2, b3)
  {
    hide Or, Shl;
    Powers();
    ByteShifts(b0, 24, 0x100_0000);
    ByteShifts(b1, 16, 0x1_0000);
    ByteShifts(b2, 8, 0x100);
    OrOfFields(Shl(b0, 24), Shl(b1, 16), 24);
    OrOfFields(Shl(b0, 24) + Shl(b1, 16), Shl(b2, 8), 16);
    OrOfFields(Shl(b0, 24) + Shl(b1, 16) + Shl(b2, 8), b3, 8);
  }

  /** One word of the message schedule, added up as the code does. */
  method NextWord(w2: u32, w7: u32, w15: u32, w16: u32) returns (w: u32)
    ensures w == Wrap(SmallSigma1(w2) as int + w7 + SmallSigma0(w15) + w16)
  {
    hide Rotr, Xor, Shr, Wrap;
    var s0 := Xor(Xor(Rotr(w15, 7), Rotr(w15, 18)), Shr(w15, 3));
    var s1 := Xor(Xor(Rotr(w2, 17), Rotr(w2, 19)), Shr(w2, 10));
    w := Wrap(w16 as int + s0);
    w := Wrap(w as int + w7);
    w := Wrap(w as int + s1);
    WrapAdds(w16 as int + s0, w7);
    WrapAdds(w16 as int + s0 + w7, s1);
  }

  /** One round, added up as the code does. */
  method NextRound(v: Variables, k: u32, w: u32) returns (r: Variables)
    ensures r == Round(v, k, w)
  {
    hide Rotr, Xor, And, Not, Wrap;
    var Variables(a, b, c, d, e, f, g, h) := v;
    var s1 := Xor(Xor(Rotr(e, 6), Rotr(e, 11)), Rotr(e, 25));
    var ch := Xor(And(e, f), And(Not(e), g));
    var temp1 := Wrap(h as int + s1);
    temp1 := Wrap(temp1 as int + ch);
    temp1 := Wrap(temp1 as int + k);
    temp1 := Wrap(temp1 as int + w);
    WrapAdds(h as int + s1, ch);
    WrapAdds(h as int + s1 + ch, k);
    WrapAdds(h as int + s1 + ch + k, w);
    var s0 := Xor(Xor(Rotr(a, 2), Rotr(a, 13)), Rotr(a, 22));
    var maj := Xor(Xor(And(a, b), And(a, c)), And(b, c));
    var temp2 := Wrap(s0 as int + maj);
    h := g;
    g := f;
    f := e;
    e := Wrap(d as int + temp1);
    d := c;
    c := b;
    b := a;
    a := Wrap(temp1 as int + temp2);
    r := Variables(a, b, c, d, e, f, g, h);
  }

  // ----- Appending blocks -----

  lemma NoBlocks()
    ensures HashOfBlocks([]) == INITIAL
  {
  }

  lemma OneMoreBlock(blocks: seq<u8>, block: Block)
    requires |blocks| % 64 == 0
    ensures HashOfBlocks(blocks + block) == Compressed(HashOfBlocks(blocks), block)
  {
    hide Compressed;
    var all := blocks + block;
    assert all[..|all| - 64] == blocks && all[|all| - 64..] == block;
  }

  // ----- The hasher -----

  const TWO64 := 0x1_0000_0000_0000_0000

  /** The whole blocks of the message are hashed, and the rest is pending. */
  ghost predicate Holds(message: seq<u8>, hash: Hash, pending: seq<u8>) {
    && |pending| <= |message| && (|message| - |pending|) % 64 == 0
    && pending == message[|message| - |pending|..]
    && hash == HashOfBlocks(message[..|message| - |pending|])
  }

  /** The 64-bit count of bytes. */
  ghost predicate CountOk(count: nat, message: seq<u8>) {
    count == |message| % TWO64
  }

  lemma CountGrows(count: nat, message: seq<u8>, more: seq<u8>)
    requires CountOk(count, message)
    ensures CountOk((count + |more|) % TWO64, message + more)
  {
    LengthGrows(|message|, |more|);
  }

  lemma HoldsAtFirst()
    ensures Holds([], INITIAL, []) && CountOk(0, [])
  {
    NoBlocks();
  }

  lemma HoldsMore(message: seq<u8>, hash: Hash, pending: seq<u8>, more: seq<u8>)
    requires Holds(message, hash, pending)
    ensures Holds(message + more, hash, pending + more)
  {
    hide HashOfBlocks;
    var n := |message| - |pending|;
    assert (message + more)[..n] == message[..n] && (message + more)[n..] == message[n..] + more;
  }

  lemma HoldsWholeBlock(message: seq<u8>, hash: Hash, block: Block)
    requires Holds(message, hash, block)
    ensures Holds(message, Compressed(hash, block), [])
  {
    hide Compressed, HashOfBlocks;
    OneMoreBlock(message[..|message| - 64], block);
    Minus64(|message|);
    assert message[..|message| - 64] + block == message == message[..|message|];
  }

  lemma Minus64(n: int)
    requires (n - 64) % 64 == 0
    ensures n % 64 == 0
  {
  }

  class Sha256Hasher {
    const state: array<u32>
    const buffer: array<u8>
    var bufferSize: nat
    var totalBytes: nat
    var finalized: bool
    ghost var message: seq<u8>

    ghost predicate Hashed(seen: seq<u8>)
      reads `bufferSize, state, buffer
    {
      state.Length == 8 && buffer.Length == 64 && bufferSize <= 64 && Holds(seen, state[..], buffer[..bufferSize])
    }

    ghost predicate Valid()
      reads this, state, buffer
    {
      && state.Length == 8 && buffer.Length == 64
      && (!finalized ==> bufferSize < 64 && Hashed(message) && CountOk(totalBytes, message))
    }

    constructor ()
      ensures Valid() && fresh(state) && fresh(buffer) && !finalized && message == []
    {
      state := new u32[] [0x6a09e667, 0xbb67ae85, 0x3c6ef372, 0xa54ff53a, 0x510e527f, 0x9b05688c, 0x1f83d9ab, 0x5be0cd19];
      buffer := new u8[64](_ => 0);
      bufferSize, totalBytes, finalized, message := 0, 0, false, [];
      new;
      assert state[..] == INITIAL && buffer[..0] == [];
      HoldsAtFirst();
      hide *;
    }

    method FillSchedule(ghost block: Block) returns (w: array<u32>)
      requires buffer.Length == 64 && block == buffer[..]
      ensures fresh(w) && w.Length == 64 && forall j :: 0 <= j < 64 ==> w[j] == W(block, j)
    {
      hide W, BigEndianWord, SmallSigma0, SmallSigma1, Or, Shl, Wrap;
      w := new u32[64](_ => 0);
      for i := 0 to 16
        invariant forall j :: 0 <= j < i ==> w[j] == W(block, j)
      {
        var o := i * 4;
        assert buffer[o] == block[o] && buffer[o + 1] == block[o + 1] && buffer[o + 2] == block[o + 2] && buffer[o + 3] == block[o + 3];
        BytesJoin(buffer[o], buffer[o + 1], buffer[o + 2], buffer[o + 3]);
        FirstWords(block, i);
        w[i] := Or(Or(Or(Shl(buffer[o], 24), Shl(buffer[o + 1], 16)), Shl(buffer[o + 2], 8)), buffer[o + 3]);
      }
      for i := 16 to 64
        invariant forall j :: 0 <= j < i ==> w[j] == W(block, j)
      {
        LaterWords(block, i);
        var next := NextWord(w[i - 2], w[i - 7], w[i - 15], w[i - 16]);
        w[i] := next;
      }
    }

    method Transform(ghost block: Block)
      requires state.Length == 8 && buffer.Length == 64 && block == buffer[..]
      modifies state
      ensures state[..] == Compressed(old(state[..]), block)
    {
      hide W, Round, BigEndianWord, SmallSigma0, SmallSigma1, K, Or, Shl, Wrap;
      ThereAre64Constants();
      var w := FillSchedule(block);
      var v := Variables(state[0], state[1], state[2], state[3], state[4], state[5], state[6], state[7]);
      for i := 0 to |K|
        invariant v == Rounds(old(state[..]), block, i)
        invariant forall j :: 0 <= j < 64 ==> w[j] == W(block, j)
        invariant state[..] == old(state[..])
      {
        v := NextRound(v, K[i], w[i]);
      }
      state[0] := Wrap(v.a + state[0]);
      state[1] := Wrap(v.b + state[1]);
      state[2] := Wrap(v.c + state[2]);
      state[3] := Wrap(v.d + state[3]);
      state[4] := Wrap(v.e + state[4]);
      state[5] := Wrap(v.f + state[5]);
      state[6] := Wrap(v.g + state[6]);
      state[7] := Wrap(v.h + state[7]);
    }

    method CopyIn(bytes: seq<u8>)
      requires buffer.Length == 64 && bufferSize + |bytes| <= 64
      modifies buffer
      ensures buffer[..bufferSize + |bytes|] == old(buffer[..bufferSize]) + bytes
    {
      for i := 0 to |bytes|
        invariant buffer[..bufferSize] == old(buffer[..bufferSize]) && buffer[bufferSize..bufferSize + i] == bytes[..i]
      {
        buffer[bufferSize + i] := bytes[i];
      }
      assert buffer[..bufferSize + |bytes|] == buffer[..bufferSize] + buffer[bufferSize..bufferSize + |bytes|];
    }

    method HashFullBuffer(ghost seen: seq<u8>)
      requires Hashed(seen) && bufferSize == 64
      modifies state, `bufferSize
      ensures Hashed(seen) && bufferSize == 0
    {
      hide Holds, Compressed;
      assert buffer[..64] == buffer[..];
      HoldsWholeBlock(seen, state[..], buffer[..]);
      Transform(buffer[..]);
      bufferSize := 0;
      assert buffer[..0] == [];
    }

    /** Takes bytes that fit into the buffer. */
    method Append(bytes: seq<u8>, ghost seen: seq<u8>)
      requires Hashed(seen) && bufferSize + |bytes| <= 64
      modifies buffer, `bufferSize
      ensures Hashed(seen + bytes) && bufferSize == old(bufferSize) + |bytes|
    {
      hide Holds;
      HoldsMore(seen, state[..], buffer[..bufferSize], bytes);
      CopyIn(bytes);
      bufferSize := bufferSize + |bytes|;
    }

    /** Takes bytes that fit into the buffer, and hashes it when it is full. */
    method Absorb(bytes: seq<u8>, ghost seen: seq<u8>)
      requires Hashed(seen) && bufferSize + |bytes| <= 64
      modifies state, buffer, `bufferSize
      ensures Hashed(seen + bytes) && bufferSize < 64
    {
      hide Hashed;
      Append(bytes, seen);
      if bufferSize == 64 {
        HashFullBuffer(seen + bytes);
      }
    }

    method AbsorbAll(bytes: seq<u8>, ghost seen: seq<u8>)
      requires Hashed(seen) && bufferSize < 64
      modifies state, buffer, `bufferSize
      ensures Hashed(seen + bytes) && bufferSize < 64
    {
      hide Holds;
      var done := 0;
      assert seen + bytes[..0] == seen;
      while done < |bytes|
        invariant 0 <= done <= |bytes| && bufferSize < 64 && Hashed(seen + bytes[..done])
      {
        var take := if 64 - bufferSize <= |bytes| - done then 64 - bufferSize else |bytes| - done;
        assert (seen + bytes[..done]) + bytes[done..done + take] == seen + bytes[..done + take];
        Absorb(bytes[done..done + take], seen + bytes[..done]);
        done := done + take;
      }
      assert bytes[..done] == bytes;
    }

    method Count(bytes: seq<u8>)
      requires CountOk(totalBytes, message)
      modifies `totalBytes
      ensures CountOk(totalBytes, message + bytes)
    {
      CountGrows(totalBytes, message, bytes);
      totalBytes := (totalBytes + |bytes|) % TWO64;
    }

    method Take(bytes: seq<u8>)
      requires Valid() && !finalized
      modifies this, state, buffer
      ensures Valid() && !finalized && message == old(message) + bytes
    {
      hide Hashed, CountOk;
      Count(bytes);
      AbsorbAll(bytes, message);
      message := message + bytes;
    }

    method Update(bytes: seq<u8>) returns (r: Result<()>)
      requires Valid()
      modifies this, state, buffer
      ensures Valid() && finalized == old(finalized)
      ensures if finalized then r == Failure(InvalidArgument) && message == old(message) else r == Success(()) && message == old(message) + bytes
    {
      if finalized {
        return Failure(InvalidArgument);
      }
      Take(bytes);
      r := Success(());
    }

    /** Fills the buffer with zeros up to `to`. */
    method FillZeros(to: nat, ghost seen: seq<u8>)
      requires Hashed(seen) && bufferSize <= to <= 64
      modifies buffer, `bufferSize
      ensures bufferSize == to && Hashed(seen + Zeros(to - old(bufferSize)))
    {
      hide Hashed;
      var from := bufferSize;
      assert seen + Zeros(0) == seen;
      while bufferSize < to
        invariant from <= bufferSize <= to && Hashed(seen + Zeros(bufferSize - from))
      {
        assert seen + Zeros(bufferSize - from) + [0] == seen + Zeros(bufferSize + 1 - from);
        Append([0], seen + Zeros(bufferSize - from));
      }
    }

    /** The last eight bytes of the buffer become the length in bits. */
    method PutLength(bits: nat, ghost seen: seq<u8>)
      requires Hashed(seen) && bufferSize == 56
      modifies buffer, `bufferSize
      ensures Hashed(seen + LengthBytes(bits)) && bufferSize == 64
    {
      hide LengthByte, Holds;
      HoldsMore(seen, state[..], buffer[..56], LengthBytes(bits));
      for i := 0 to 8
        invariant buffer[..56] == old(buffer[..56])
        invariant forall j :: 0 <= j < i ==> buffer[63 - j] == LengthByte(bits, j)
      {
        buffer[63 - i] := LengthByte(bits, i);
      }
      forall k | 56 <= k < 64 ensures buffer[k] == LengthByte(bits, 63 - k) {
        var j := 63 - k;
        assert buffer[63 - j] == LengthByte(bits, j);
      }
      assert buffer[..64] == buffer[..56] + LengthBytes(bits);
      bufferSize := 64;
    }

    lemma HashedLength(seen: seq<u8>)
      requires Hashed(seen)
      ensures bufferSize <= |seen| && (|seen| - bufferSize) % 64 == 0
    {
      hide HashOfBlocks;
    }

    /** The mark and the zeros; when the length no longer fits into this block, the block is hashed first. */
    method PadZeros(ghost seen: seq<u8>)
      requires Hashed(seen) && bufferSize < 64
      modifies state, buffer, `bufferSize
      ensures Hashed(Marked(seen)) && bufferSize == 56
    {
      hide *;
      ghost var b := bufferSize;
      HashedLength(seen);
      PaddingLengths(seen, b);
      ghost var marked := seen + [0x80];
      Append([0x80], seen);
      if bufferSize > 56 {
        ghost var filled := marked + Zeros(63 - b);
        FillZeros(64, marked);
        HashFullBuffer(filled);
        FillZeros(56, filled);
      } else {
        FillZeros(56, marked);
      }
    }

    method Pad(bits: nat, ghost seen: seq<u8>)
      requires Hashed(seen) && bufferSize < 64 && bits == BitLength(|seen|)
      modifies state, buffer, `bufferSize
      ensures Hashed(Padded(seen)) && bufferSize == 0
    {
      hide *;
      PadZeros(seen);
      PutLength(bits, Marked(seen));
      PaddedIsMarked(seen);
      HashFullBuffer(Padded(seen));
    }

    method WriteDigest() returns (digest: seq<u8>)
      requires state.Length == 8
      ensures digest == DigestOf(state[..])
    {
      digest := [];
      for i := 0 to state.Length
        invariant digest == DigestOf(state[..i])
      {
        BytesOfWord(state[i]);
        digest := digest + [Shr(state[i], 24) % 0x100, Shr(state[i], 16) % 0x100, Shr(state[i], 8) % 0x100, state[i] % 0x100];
        assert state[..i + 1][..i] == state[..i];
      }
      assert state[..state.Length] == state[..];
    }

    method Finish() returns (digest: seq<u8>)
      requires Valid() && !finalized
      modifies this, state, buffer
      ensures Valid() && finalized && message == old(message) && digest == Sha256Of(message)
    {
      hide Holds, Padded, TWO64;
      finalized := true;
      var bits := Bits(totalBytes);
      BitsOf(totalBytes, message);
      Pad(bits, message);
      WholeMessage(Padded(message), state[..], buffer[..0]);
      digest := WriteDigest();
    }

    /** The digest, once: a finalized hasher takes and gives nothing more. */
    method Finalize() returns (r: Result<seq<u8>>)
      requires Valid()
      modifies this, state, buffer
      ensures Valid() && finalized && message == old(message)
      ensures r == if old(finalized) then Failure(InvalidArgument) else Success(Sha256Of(message))
    {
      if finalized {
        return Failure(InvalidArgument);
      }
      var digest := Finish();
      r := Success(digest);
    }
  }

  method Sha256Bytes(bytes: seq<u8>) returns (digest: seq<u8>)
    ensures digest == Sha256Of(bytes)
  {
    hide Sha256Of;
    var hasher := new Sha256Hasher();
    var updated := hasher.Update(bytes);
    assert [] + bytes == bytes;
    var r := hasher.Finalize();
    digest := r.value;
  }

  function Bits(totalBytes: nat): nat {
    totalBytes * 8 % TWO64
  }

  lemma BitsOf(totalBytes: nat, message: seq<u8>)
    requires CountOk(totalBytes, message)
    ensures Bits(totalBytes) == BitLength(|message|)
  {
  }

  lemma WholeMessage(blocks: seq<u8>, hash: Hash, pending: seq<u8>)
    requires Holds(blocks, hash, pending) && pending == []
    ensures hash == HashOfBlocks(blocks)
  {
    assert blocks[..|blocks|] == blocks;
  }

  /** A message with its mark and zeros, ready for the length. */
  function Marked(message: seq<u8>): seq<u8> {
    message + [0x80] + Zeros(ZeroBytes(|message|))
  }

  lemma PaddedIsMarked(message: seq<u8>)
    ensures Padded(message) == Marked(message) + LengthBytes(BitLength(|message|))
  {
    hide LengthBytes, BitLength, ZeroBytes;
  }

  /** Both ways of padding in the buffer come to the zeros of the standard. */
  lemma PaddingLengths(seen: seq<u8>, pending: nat)
    requires pending < 64 && pending <= |seen| && (|seen| - pending) % 64 == 0
    ensures if pending + 1 > 56 then seen + [0x80] + Zeros(63 - pending) + Zeros(56) == Marked(seen)
            else seen + [0x80] + Zeros(55 - pending) == Marked(seen)
  {
    RemainderIs(|seen|, 64, (|seen| - pending) / 64, pending);
    assert ZeroBytes(|seen|) == if pending + 1 > 56 then 119 - pending else 55 - pending;
    if pending + 1 > 56 {
      assert Zeros(63 - pending) + Zeros(56) == Zeros(119 - pending);
    }
  }

  lemma BytesOfWord(w: u32)
    ensures [Shr(w, 24) % 0x100, Shr(w, 16) % 0x100, Shr(w, 8) % 0x100, w % 0x100] == WordBytes(w)
  {
    Powers();
  }

  lemma LengthGrows(length: nat, more: nat)
    ensures (length % TWO64 + more) % TWO64 == (length + more) % TWO64
  {
  }

  lemma FirstWords(block: Block, i: nat)
    requires i < 16
    ensures W(block, i) == BigEndianWord(block[4 * i], block[4 * i + 1], block[4 * i + 2], block[4 * i + 3])
  {
  }

  lemma LaterWords(block: Block, i: nat)
    requires 16 <= i < 64
    ensures W(block, i) == Wrap(SmallSigma1(W(block, i - 2)) + W(block, i - 7) + SmallSigma0(W(block, i - 15)) + W(block, i - 16))
  {
    hide SmallSigma0, SmallSigma1, Wrap;
  }
}
