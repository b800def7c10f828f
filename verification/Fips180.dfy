/** SHA-256 as FIPS 180-4 defines it, over whole messages of bytes: the 64-word
    message schedule and the compression function (section 6.2.2), the padding
    (section 5.1.1), the parsing into 512-bit blocks (section 5.2.1), and on top of
    it HMAC (section 2 of RFC 2104). Nothing here knows about streaming. */
module Fips180 {
  import opened Common

  newtype Word = x: int | 0 <= x < 0x1_0000_0000

  type Digest = h: seq<Word> | |h| == 8 witness [0, 0, 0, 0, 0, 0, 0, 0]
  type Block = m: seq<Byte> | |m| == 64 witness seq(64, _ => 0)

  /** The initial hash value of section 5.3.3. */
  function Initial(): Digest {
    [0x6a09e667, 0xbb67ae85, 0x3c6ef372, 0xa54ff53a, 0x510e527f, 0x9b05688c, 0x1f83d9ab, 0x5be0cd19]
  }

  /** The constant K_t of section 4.2.2. */
  function K(t: nat): Word
    requires t < 64
  {
    [[0x428a2f98, 0x71374491, 0xb5c0fbcf, 0xe9b5dba5, 0x3956c25b, 0x59f111f1, 0x923f82a4, 0xab1c5ed5],
     [0xd807aa98, 0x12835b01, 0x243185be, 0x550c7dc3, 0x72be5d74, 0x80deb1fe, 0x9bdc06a7, 0xc19bf174],
     [0xe49b69c1, 0xefbe4786, 0x0fc19dc6, 0x240ca1cc, 0x2de92c6f, 0x4a7484aa, 0x5cb0a9dc, 0x76f988da],
     [0x983e5152, 0xa831c66d, 0xb00327c8, 0xbf597fc7, 0xc6e00bf3, 0xd5a79147, 0x06ca6351, 0x14292967],
     [0x27b70a85, 0x2e1b2138, 0x4d2c6dfc, 0x53380d13, 0x650a7354, 0x766a0abb, 0x81c2c92e, 0x92722c85],
     [0xa2bfe8a1, 0xa81a664b, 0xc24b8b70, 0xc76c51a3, 0xd192e819, 0xd6990624, 0xf40e3585, 0x106aa070],
     [0x19a4c116, 0x1e376c08, 0x2748774c, 0x34b0bcb5, 0x391c0cb3, 0x4ed8aa4a, 0x5b9cca4f, 0x682e6ff3],
     [0x748f82ee, 0x78a5636f, 0x84c87814, 0x8cc70208, 0x90befffa, 0xa4506ceb, 0xbef9a3f7, 0xc67178f2]][t / 8][t % 8]
  }

  // Operations on words: addition modulo 2^32, and bit operations on the 32 bits.

  function Add(x: Word, y: Word): Word {
    var sum := x as int + y as int;
    (if sum < 0x1_0000_0000 then sum else sum - 0x1_0000_0000) as Word
  }

  function Xor(x: Word, y: Word): Word { ((x as bv32) ^ (y as bv32)) as Word }
  function And(x: Word, y: Word): Word { ((x as bv32) & (y as bv32)) as Word }
  function Not(x: Word): Word { (!(x as bv32)) as Word }
  function Shr(x: Word, n: bv32): Word requires n < 32 { ((x as bv32) >> n) as Word }
  /** ROTR, in the form section 3.2 gives it; right_rot is the same expression. */
  function Rotr(x: Word, n: bv32): Word
    requires 0 < n < 32
  {
    var v := x as bv32;
    ((v >> n) | (v << (32 - n))) as Word
  }

  // The six functions of section 4.1.2.

  function Ch(x: Word, y: Word, z: Word): Word { Xor(And(x, y), And(Not(x), z)) }
  function Maj(x: Word, y: Word, z: Word): Word { Xor(Xor(And(x, y), And(x, z)), And(y, z)) }
  function BigSigma0(x: Word): Word { Xor(Xor(Rotr(x, 2), Rotr(x, 13)), Rotr(x, 22)) }
  function BigSigma1(x: Word): Word { Xor(Xor(Rotr(x, 6), Rotr(x, 11)), Rotr(x, 25)) }
  function SmallSigma0(x: Word): Word { Xor(Xor(Rotr(x, 7), Rotr(x, 18)), Shr(x, 3)) }
  function SmallSigma1(x: Word): Word { Xor(Xor(Rotr(x, 17), Rotr(x, 19)), Shr(x, 10)) }

  lemma BitsComeBack(v: bv32)
    ensures v as Word as bv32 == v
  {
  }

  // Sections 2.2.2 and 3.2: the bit operations act on the 32 bits, and addition is modulo 2^32.

  lemma RotrBits(x: Word, n: bv32)
    requires 0 < n < 32
    ensures Rotr(x, n) as bv32 == (x as bv32 >> n) | (x as bv32 << (32 - n))
  {
    BitsComeBack((x as bv32 >> n) | (x as bv32 << (32 - n)));
  }

  /** By the ten amounts that section 4.1.2 uses, this turns the word and loses no bit. */
  lemma RotrTurns(v: bv32)
    ensures (v >> 2) | (v << 30) == v.RotateRight(2) && (v >> 6) | (v << 26) == v.RotateRight(6)
    ensures (v >> 7) | (v << 25) == v.RotateRight(7) && (v >> 11) | (v << 21) == v.RotateRight(11)
    ensures (v >> 13) | (v << 19) == v.RotateRight(13) && (v >> 17) | (v << 15) == v.RotateRight(17)
    ensures (v >> 18) | (v << 14) == v.RotateRight(18) && (v >> 19) | (v << 13) == v.RotateRight(19)
    ensures (v >> 22) | (v << 10) == v.RotateRight(22) && (v >> 25) | (v << 7) == v.RotateRight(25)
  {
  }

  lemma AddWraps(x: Word, y: Word)
    ensures Add(x, y) as int == (x as int + y as int) % 0x1_0000_0000
  {
  }

  lemma XorBits(x: Word, y: Word)
    ensures Xor(x, y) as bv32 == x as bv32 ^ y as bv32
  {
  }

  lemma AndBits(x: Word, y: Word)
    ensures And(x, y) as bv32 == x as bv32 & y as bv32
  {
  }

  lemma NotBits(x: Word)
    ensures Not(x) as bv32 == !(x as bv32)
  {
  }

  lemma ShrBits(x: Word, n: bv32)
    requires n < 32
    ensures Shr(x, n) as bv32 == x as bv32 >> n
  {
  }

  /** Four bytes, most significant first, as one word. */
  function BigEndianWord(b0: Byte, b1: Byte, b2: Byte, b3: Byte): Word {
    b0 as Word * 0x100_0000 + b1 as Word * 0x1_0000 + b2 as Word * 0x100 + b3 as Word
  }

  /** The low n bytes of x, most significant first. */
  function BigEndian(n: nat, x: nat): (r: seq<Byte>)
    ensures |r| == n
  {
    if n == 0 then [] else BigEndian(n - 1, x / 256) + [(x % 256) as Byte]
  }

  lemma BigEndianStep(n: nat, x: nat)
    ensures BigEndian(0, x) == [] && BigEndian(n + 1, x) == BigEndian(n, x / 256) + [(x % 256) as Byte]
  {
  }

  function WordBytes(w: Word): seq<Byte> {
    [(w / 0x100_0000) as Byte, (w / 0x1_0000 % 0x100) as Byte, (w / 0x100 % 0x100) as Byte, (w % 0x100) as Byte]
  }

  lemma Halves(b0: Byte, b1: Byte, b2: Byte, b3: Byte)
    ensures var w := BigEndianWord(b0, b1, b2, b3) as int;
      && w / 0x100 == b0 as int * 0x1_0000 + b1 as int * 0x100 + b2 as int && w % 0x100 == b3 as int
      && w / 0x100 / 0x100 == b0 as int * 0x100 + b1 as int && w / 0x100 % 0x100 == b2 as int
      && w / 0x100 / 0x100 / 0x100 == b0 as int && w / 0x100 / 0x100 % 0x100 == b1 as int
  {
  }

  /** Section 3.1: the first byte is the most significant. */
  lemma WordOfBytes(b0: Byte, b1: Byte, b2: Byte, b3: Byte)
    ensures BigEndian(4, BigEndianWord(b0, b1, b2, b3) as int) == [b0, b1, b2, b3]
    ensures BigEndianWord(0, 0, 0, 1) == 1
  {
    var w := BigEndianWord(b0, b1, b2, b3) as int;
    Halves(b0, b1, b2, b3);
    BigEndianStep(3, w);
    BigEndianStep(2, w / 0x100);
    BigEndianStep(1, w / 0x100 / 0x100);
    BigEndianStep(0, w / 0x100 / 0x100 / 0x100);
    hide BigEndian;
  }

  lemma BytesOfWord(b0: Byte, b1: Byte, b2: Byte, b3: Byte)
    ensures WordBytes(BigEndianWord(b0, b1, b2, b3)) == [b0, b1, b2, b3]
  {
    Halves(b0, b1, b2, b3);
    var w := BigEndianWord(b0, b1, b2, b3) as int;
    assert w / 0x1_0000 == w / 0x100 / 0x100 && w / 0x100_0000 == w / 0x100 / 0x100 / 0x100;
  }

  /** The message schedule word W_t of a block, section 6.2.2 step 1. */
  function Schedule(m: Block, t: nat): Word
    requires t < 64
  {
    hide Add, SmallSigma0, SmallSigma1, BigEndianWord;
    if t < 16 then
      BigEndianWord(m[4 * t], m[4 * t + 1], m[4 * t + 2], m[4 * t + 3])
    else
      Add(Add(Add(SmallSigma1(Schedule(m, t - 2)), Schedule(m, t - 7)),
              SmallSigma0(Schedule(m, t - 15))), Schedule(m, t - 16))
  }

  function T1(v: Digest, k: Word, w: Word): Word {
    hide Add, BigSigma1, Ch;
    Add(Add(Add(Add(v[7], BigSigma1(v[4])), Ch(v[4], v[5], v[6])), k), w)
  }

  function T2(v: Digest): Word {
    hide Add, BigSigma0, Maj;
    Add(BigSigma0(v[0]), Maj(v[0], v[1], v[2]))
  }

  /** One round over the working variables a..h, section 6.2.2 step 3. */
  function Round(v: Digest, k: Word, w: Word): Digest {
    hide Add, T1, T2;
    var t1 := T1(v, k, w);
    [Add(t1, T2(v)), v[0], v[1], v[2], Add(v[3], t1), v[4], v[5], v[6]]
  }

  /** The working variables after the first t rounds. */
  function Rounds(h: Digest, m: Block, t: nat): Digest
    requires t <= 64
  {
    hide Round, K, Schedule;
    if t == 0 then h else Round(Rounds(h, m, t - 1), K(t - 1), Schedule(m, t - 1))
  }

  function AddDigests(x: Digest, y: Digest): Digest {
    hide Add;
    seq(8, i requires 0 <= i < 8 => Add(x[i], y[i]))
  }

  /** The intermediate hash value after one more block, section 6.2.2 step 4. */
  function Compress(h: Digest, m: Block): Digest {
    hide AddDigests, Rounds;
    AddDigests(h, Rounds(h, m, 64))
  }

  /** The hash value after all the blocks. */
  function HashBlocks(blocks: seq<Block>): Digest {
    hide Compress, Initial;
    if blocks == [] then Initial()
    else Compress(HashBlocks(blocks[..|blocks| - 1]), blocks[|blocks| - 1])
  }

  /** The parsing of section 5.2.1: consecutive 64-byte blocks. */
  function Blocks(s: seq<Byte>): seq<Block>
    requires |s| % 64 == 0
  {
    if s == [] then [] else Blocks(s[..|s| - 64]) + [s[|s| - 64..]]
  }

  function Flatten(blocks: seq<Block>): (s: seq<Byte>)
    ensures |s| == 64 * |blocks|
  {
    if blocks == [] then [] else Flatten(blocks[..|blocks| - 1]) + blocks[|blocks| - 1]
  }

  lemma {:induction false} ParsingUndoesFlatten(blocks: seq<Block>)
    ensures Blocks(Flatten(blocks)) == blocks
  {
    if blocks != [] {
      var front, last := blocks[..|blocks| - 1], blocks[|blocks| - 1];
      var s := Flatten(blocks);
      assert s == Flatten(front) + last;
      assert s[..|s| - 64] == Flatten(front) && s[|s| - 64..] == last;
      ParsingUndoesFlatten(front);
    }
  }

  function Zeros(n: nat): seq<Byte> { seq(n, _ => 0) }

  /** How many zero bytes follow the 0x80 byte. */
  function ZeroCount(len: nat): nat {
    var r := len % 64;
    if r <= 55 then 55 - r else 119 - r
  }

  /** The padded message of section 5.1.1. */
  function Pad(msg: seq<Byte>): seq<Byte> {
    msg + [0x80] + Zeros(ZeroCount(|msg|)) + BigEndian(8, 8 * |msg|)
  }

  lemma Remainder(q: int, r: int)
    requires 0 <= r < 64
    ensures (64 * q + r) % 64 == r
  {
  }

  /** Section 5.1.1: the zero count is the least one that leaves eight bytes of the
      last block for the length, so the padded message is a whole number of blocks. */
  lemma PadFillsBlocks(msg: seq<Byte>)
    ensures |Pad(msg)| % 64 == 0
    ensures (|msg| + 1 + ZeroCount(|msg|)) % 64 == 56
    ensures forall z: nat {:trigger Zeros(z)} :: z < ZeroCount(|msg|) ==> (|msg| + 1 + z) % 64 != 56
  {
    var q, r := |msg| / 64, |msg| % 64;
    Remainder(if r <= 55 then q else q + 1, 56);
    Remainder(if r <= 55 then q + 1 else q + 2, 0);
    assert |Pad(msg)| == |msg| + 1 + ZeroCount(|msg|) + 8;
    forall z: nat {:trigger Zeros(z)} | z < ZeroCount(|msg|)
      ensures (|msg| + 1 + z) % 64 != 56
    {
      Remainder(if r + 1 + z < 64 then q else q + 1, if r + 1 + z < 64 then r + 1 + z else r + 1 + z - 64);
    }
  }

  /** The words of a digest written out most significant byte first. */
  function DigestBytes(h: seq<Word>): (r: seq<Byte>)
    ensures |r| == 4 * |h|
  {
    if h == [] then [] else DigestBytes(h[..|h| - 1]) + WordBytes(h[|h| - 1])
  }

  function Sha256(msg: seq<Byte>): (r: seq<Byte>)
    ensures |r| == 32
  {
    hide HashBlocks, Blocks, Pad;
    PadFillsBlocks(msg);
    DigestBytes(HashBlocks(Blocks(Pad(msg))))
  }

  // ----- HMAC, section 2 of RFC 2104 -----

  function XorByte(x: Byte, y: Byte): Byte { ((x as bv8) ^ (y as bv8)) as Byte }

  lemma XorByteBits(x: Byte, y: Byte)
    ensures XorByte(x, y) as bv8 == x as bv8 ^ y as bv8
  {
  }

  function XorAll(s: seq<Byte>, b: Byte): seq<Byte> { seq(|s|, i requires 0 <= i < |s| => XorByte(s[i], b)) }

  /** The key brought to exactly one block: hashed when longer, then zero filled. */
  function BlockKey(key: seq<Byte>): Block {
    hide Sha256;
    var k := if |key| > 64 then Sha256(key) else key;
    k + Zeros(64 - |k|)
  }

  function Hmac(key: seq<Byte>, text: seq<Byte>): seq<Byte> {
    hide Sha256, XorAll, BlockKey;
    var k := BlockKey(key);
    Sha256(XorAll(k, 0x5c) + Sha256(XorAll(k, 0x36) + text))
  }
}
