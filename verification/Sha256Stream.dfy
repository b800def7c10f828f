/** The streaming SHA-256 of sha-256.c: a 64-byte buffer filled in place, a 16-word
    circular message schedule, and the in-place length encoder. Every method is tied
    to the whole-message definitions of module Fips180. */
module Sha256Stream {
  import opened Common
  import opened Fips180

  /** A size_t, which wraps. */
  function SizeT(n: nat): nat { n % 0x1_0000_0000_0000_0000 }

  lemma SizeTFits(n: nat)
    ensures n < 0x1_0000_0000_0000_0000 ==> SizeT(n) == n
  {
  }

  lemma SizeTAdds(n: nat, k: nat)
    ensures SizeT(SizeT(n) + k) == SizeT(n + k)
  {
    var m, a := 0x1_0000_0000_0000_0000, SizeT(n) + k;
    assert n == n / 0x1_0000_0000_0000_0000 * m + SizeT(n);
    assert a == a / 0x1_0000_0000_0000_0000 * m + SizeT(a);
    assert n + k == (n / 0x1_0000_0000_0000_0000 + a / 0x1_0000_0000_0000_0000) * m + SizeT(a);
  }

  lemma MoreData(before: seq<Byte>, data: seq<Byte>, p: nat, q: nat)
    requires p <= q <= |data|
    ensures before + data[..p] + data[p..q] == before + data[..q]
  {
  }

  lemma AddReordered(a: Word, b: Word, c: Word, d: Word)
    ensures Add(Add(Add(a, b), c), d) == Add(Add(Add(d, c), b), a)
  {
  }

  // ----- consume_chunk -----

  /** The whole message schedule of a block. */
  function Words(m: Block): (ws: seq<Word>)
    ensures |ws| == 64
  {
    seq(64, t requires 0 <= t < 64 => Schedule(m, t))
  }

  lemma WordAt(m: Block, t: nat)
    requires t < 64
    ensures Words(m)[t] == Schedule(m, t)
  {
    hide Schedule;
  }

  /** Slot j of the 16-word window when `done` words of a schedule have been produced holds
      the latest word whose index is congruent to j modulo 16. */
  ghost predicate WindowHolds(w: seq<Word>, ws: seq<Word>, done: nat)
    requires |w| == 16 && |ws| == 64 && done <= 64
  {
    forall t: nat {:trigger ws[t]} :: t < done <= t + 16 ==> w[t % 16] == ws[t]
  }

  /** The slots that step 16i+j reads hold the words 15, 2, 7 and 16 back. */
  lemma WindowSlots(w: seq<Word>, ws: seq<Word>, i: nat, j: nat)
    requires |w| == 16 && |ws| == 64 && 0 < i < 4 && j < 16
    requires WindowHolds(w, ws, 16 * i + j)
    ensures w[(j + 1) % 16] == ws[16 * i + j - 15]
    ensures w[(j + 14) % 16] == ws[16 * i + j - 2]
    ensures w[(j + 9) % 16] == ws[16 * i + j - 7]
    ensures w[j] == ws[16 * i + j - 16]
  {
    var t := 16 * i + j;
    assert (t - 15) % 16 == (j + 1) % 16 && (t - 2) % 16 == (j + 14) % 16;
    assert (t - 7) % 16 == (j + 9) % 16 && (t - 16) % 16 == j;
  }

  lemma WindowAdvances(before: seq<Word>, after: seq<Word>, ws: seq<Word>, t: nat)
    requires |before| == |after| == 16 && |ws| == 64 && t < 64
    requires WindowHolds(before, ws, t)
    requires after == before[t % 16 := ws[t]]
    ensures WindowHolds(after, ws, t + 1)
  {
    forall u: nat {:trigger ws[u]} | u < t + 1 <= u + 16
      ensures after[u % 16] == ws[u]
    {
      if u < t {
        assert u % 16 != t % 16;
      }
    }
  }

  /** Computes the next schedule word in its slot, as lines 92-104 do. */
  method NextScheduleWord(w: array<Word>, p: seq<Byte>, i: nat, j: nat)
    requires w.Length == 16 && |p| == 64 && i < 4 && j < 16
    requires WindowHolds(w[..], Words(p), 16 * i + j)
    modifies w
    ensures WindowHolds(w[..], Words(p), 16 * i + j + 1)
    ensures w[j] == Schedule(p, 16 * i + j)
  {
    hide Add, Xor, Shr, Rotr, BigEndianWord, Words, WindowHolds;
    ghost var t := 16 * i + j;
    ghost var before := w[..];
    if i == 0 {
      w[j] := BigEndianWord(p[4 * j], p[4 * j + 1], p[4 * j + 2], p[4 * j + 3]);
    } else {
      WindowSlots(before, Words(p), i, j);
      WordAt(p, t - 15);
      WordAt(p, t - 2);
      WordAt(p, t - 7);
      WordAt(p, t - 16);
      var x, y := w[(j + 1) % 16], w[(j + 14) % 16];
      var s0 := Xor(Xor(Rotr(x, 7), Rotr(x, 18)), Shr(x, 3));
      var s1 := Xor(Xor(Rotr(y, 17), Rotr(y, 19)), Shr(y, 10));
      AddReordered(w[j], s0, w[(j + 9) % 16], s1);
      w[j] := Add(Add(Add(w[j], s0), w[(j + 9) % 16]), s1);
    }
    assert w[j] == Schedule(p, t);
    WordAt(p, t);
    assert t % 16 == j;
    WindowAdvances(before, w[..], Words(p), t);
  }

  /** One round in place on the eight working variables, lines 105-136. */
  method RoundInPlace(ah: array<Word>, k: Word, wj: Word)
    requires ah.Length == 8
    modifies ah
    ensures ah[..] == Round(old(ah[..]), k, wj)
  {
    hide Add, Xor, And, Not, Rotr;
    ghost var v: Digest := ah[..];
    var s1 := Xor(Xor(Rotr(ah[4], 6), Rotr(ah[4], 11)), Rotr(ah[4], 25));
    var ch := Xor(And(ah[4], ah[5]), And(Not(ah[4]), ah[6]));
    var temp1 := Add(Add(Add(Add(ah[7], s1), ch), k), wj);
    var s0 := Xor(Xor(Rotr(ah[0], 2), Rotr(ah[0], 13)), Rotr(ah[0], 22));
    var maj := Xor(Xor(And(ah[0], ah[1]), And(ah[0], ah[2])), And(ah[1], ah[2]));
    var temp2 := Add(s0, maj);
    assert temp1 == T1(v, k, wj) && temp2 == T2(v);
    ah[7] := ah[6];
    ah[6] := ah[5];
    ah[5] := ah[4];
    ah[4] := Add(ah[3], temp1);
    ah[3] := ah[2];
    ah[2] := ah[1];
    ah[1] := ah[0];
    ah[0] := Add(temp1, temp2);
    assert ah[..] == [Add(temp1, temp2), v[0], v[1], v[2], Add(v[3], temp1), v[4], v[5], v[6]];
  }

  method AddInPlace(h: array<Word>, ah: seq<Word>)
    requires h.Length == 8 && |ah| == 8
    modifies h
    ensures h[..] == AddDigests(old(h[..]), ah)
  {
    hide Add;
    for i := 0 to 8
      invariant forall k :: 0 <= k < i ==> h[k] == Add(old(h[k]), ah[k])
      invariant forall k :: i <= k < 8 ==> h[k] == old(h[k])
    {
      h[i] := Add(h[i], ah[i]);
    }
  }

  method ConsumeChunk(h: array<Word>, p: seq<Byte>)
    requires h.Length == 8 && |p| == 64
    modifies h
    ensures h[..] == Compress(old(h[..]), p)
  {
    hide Round, K, Schedule;
    ghost var h0: Digest := h[..];
    var ah := new Word[8](i requires 0 <= i < 8 reads h => h[i]);
    assert ah[..] == h[..];
    var w := new Word[16];
    assert WindowHolds(w[..], Words(p), 0);
    hide WindowHolds, Words;
    for i := 0 to 4
      invariant h[..] == h0
      invariant ah[..] == Rounds(h0, p, 16 * i)
      invariant WindowHolds(w[..], Words(p), 16 * i)
    {
      for j := 0 to 16
        invariant h[..] == h0
        invariant ah[..] == Rounds(h0, p, 16 * i + j)
        invariant WindowHolds(w[..], Words(p), 16 * i + j)
      {
        NextScheduleWord(w, p, i, j);
        RoundInPlace(ah, K(16 * i + j), w[j]);
      }
    }
    AddInPlace(h, ah[..]);
  }

  // ----- the stream -----

  lemma OneMoreBlock(blocks: seq<Block>, m: Block)
    ensures HashBlocks(blocks + [m]) == Compress(HashBlocks(blocks), m)
    ensures Flatten(blocks + [m]) == Flatten(blocks) + m
  {
    hide Compress;
    assert (blocks + [m])[..|blocks|] == blocks;
  }

  lemma Regroup<T>(a: seq<T>, b: seq<T>, c: seq<T>, d: seq<T>, e: seq<T>)
    ensures a + b + c + d + e == a + (b + c + d + e)
  {
  }

  /** The padded message ends in one more block when the rest leaves room for the length. */
  lemma PadInOneBlock(blocks: seq<Block>, rest: seq<Byte>, msg: seq<Byte>, last: Block)
    requires |rest| <= 55 && msg == Flatten(blocks) + rest
    requires last == rest + [0x80] + Zeros(55 - |rest|) + BigEndian(8, 8 * |msg|)
    ensures |Pad(msg)| % 64 == 0 && Blocks(Pad(msg)) == blocks + [last]
  {
    hide Compress, Flatten, BigEndian, HashBlocks, Blocks, Zeros;
    Remainder(|blocks|, |rest|);
    assert ZeroCount(|msg|) == 55 - |rest|;
    hide ZeroCount;
    var z, be := Zeros(55 - |rest|), BigEndian(8, 8 * |msg|);
    assert Pad(msg) == Flatten(blocks) + rest + [0x80] + z + be;
    hide Pad;
    Regroup(Flatten(blocks), rest, [0x80], z, be);
    OneMoreBlock(blocks, last);
    ParsingUndoesFlatten(blocks + [last]);
  }

  /** ... and in two more blocks when it does not. */
  lemma PadInTwoBlocks(blocks: seq<Block>, rest: seq<Byte>, msg: seq<Byte>, first: Block, last: Block)
    requires 56 <= |rest| < 64 && msg == Flatten(blocks) + rest
    requires first == rest + [0x80] + Zeros(63 - |rest|)
    requires last == Zeros(56) + BigEndian(8, 8 * |msg|)
    ensures |Pad(msg)| % 64 == 0 && Blocks(Pad(msg)) == blocks + [first] + [last]
  {
    hide Compress, Flatten, BigEndian, HashBlocks, Blocks;
    Remainder(|blocks|, |rest|);
    assert ZeroCount(|msg|) == 119 - |rest|;
    hide ZeroCount;
    var z, be := Zeros(63 - |rest|), BigEndian(8, 8 * |msg|);
    assert Zeros(119 - |rest|) == z + Zeros(56);
    hide Zeros;
    assert Pad(msg) == Flatten(blocks) + rest + [0x80] + (z + Zeros(56)) + be;
    hide Pad;
    Regroup(Flatten(blocks), rest, [0x80], z + Zeros(56), be);
    assert rest + [0x80] + (z + Zeros(56)) + be == first + last;
    assert Flatten(blocks) + (first + last) == Flatten(blocks) + first + last;
    OneMoreBlock(blocks, first);
    OneMoreBlock(blocks + [first], last);
    ParsingUndoesFlatten(blocks + [first] + [last]);
  }

  /** memcpy and memset into the block buffer. */
  method CopyInto(dst: array<Byte>, at: nat, src: seq<Byte>)
    requires at + |src| <= dst.Length
    modifies dst
    ensures dst[..] == old(dst[..at]) + src + old(dst[at + |src|..])
  {
    forall k | 0 <= k < |src| {
      dst[at + k] := src[k];
    }
  }

  lemma LowByte(n: nat, x: nat)
    requires n > 0
    ensures BigEndian(n, x) == BigEndian(n - 1, x / 256) + [(x % 256) as Byte]
  {
  }

  lemma LowByteFirst(total: nat)
    requires total < 0x2000_0000_0000_0000
    ensures BigEndian(8, 8 * total) == BigEndian(7, total / 32) + [(total * 8 % 0x1_0000_0000_0000_0000 % 256) as Byte]
  {
    hide BigEndian;
    LowByte(8, 8 * total);
    assert 8 * total / 256 == total / 32;
  }

  /** The length encoder of lines 229-236: the low byte is len << 3, the seven above it
      come from len >> 5. Together they are the bit count, most significant byte first. */
  method StoreBitLength(dst: array<Byte>, at: nat, total: nat)
    requires at + 8 <= dst.Length
    requires total < 0x2000_0000_0000_0000
    modifies dst
    ensures dst[..] == old(dst[..at]) + BigEndian(8, 8 * total) + old(dst[at + 8..])
  {
    hide BigEndian;
    var len: nat := total;
    LowByteFirst(total);
    dst[at + 7] := (len * 8 % 0x1_0000_0000_0000_0000 % 256) as Byte;
    len := len / 32;
    var i: int := 6;
    assert dst[at + 7..at + 8] == [dst[at + 7]];
    while i >= 0
      invariant -1 <= i <= 6
      invariant BigEndian(8, 8 * total) == BigEndian(i + 1, len) + dst[at + i + 1..at + 8]
      invariant dst[..at] == old(dst[..at]) && dst[at + 8..] == old(dst[at + 8..])
    {
      ghost var low := dst[at + i + 1..at + 8];
      LowByte(i + 1, len);
      dst[at + i] := (len % 256) as Byte;
      assert dst[at + i + 1..at + 8] == low;
      assert dst[at + i..at + 8] == [dst[at + i]] + dst[at + i + 1..at + 8];
      len := len / 256;
      i := i - 1;
    }
    assert dst[..] == dst[..at] + dst[at..at + 8] + dst[at + 8..];
  }

  /** Writes the eight words out most significant byte first, lines 239-246. */
  method StoreDigest(hash: array<Byte>, h: array<Word>)
    requires hash.Length == 32 && h.Length == 8
    modifies hash
    ensures hash[..] == DigestBytes(h[..])
  {
    var j := 0;
    for i := 0 to 8
      invariant j == 4 * i
      invariant hash[..j] == DigestBytes(h[..i])
    {
      ghost var prefix := hash[..j];
      var word := h[i];
      hash[j] := (word / 0x100_0000) as Byte;
      hash[j + 1] := (word / 0x1_0000 % 0x100) as Byte;
      hash[j + 2] := (word / 0x100 % 0x100) as Byte;
      hash[j + 3] := (word % 0x100) as Byte;
      j := j + 4;
      assert hash[..j] == prefix + WordBytes(word);
      assert h[..i + 1][..i] == h[..i];
    }
    assert h[..8] == h[..] && hash[..32] == hash[..];
  }

  class Stream {
    const hash: array<Byte>
    const chunk: array<Byte>
    var chunkPos: nat      // the index chunk_pos points at
    var spaceLeft: nat
    var totalLen: nat
    const h: array<Word>
    ghost var blocks: seq<Block>  // the complete blocks consumed so far
    ghost var rest: seq<Byte>     // what came after them

    /** Every byte handed to Write since the start. */
    ghost function Written(): seq<Byte>
      reads this
    {
      Flatten(blocks) + rest
    }

    /** h is the hash of the complete blocks written so far, chunk holds the rest. */
    ghost predicate Absorbed()
      reads this, chunk, h
    {
      && chunk.Length == 64 && h.Length == 8
      && h[..] == HashBlocks(blocks)
      && |rest| < 64 && chunkPos == |rest| && spaceLeft == 64 - |rest|
      && chunk[..|rest|] == rest
    }

    ghost predicate Valid()
      reads this, chunk, h
    {
      && hash.Length == 32 && hash != chunk
      && totalLen == SizeT(|Written()|)
      && Absorbed()
    }

    /** sha_256_init */
    constructor (hash: array<Byte>)
      requires hash.Length == 32
      ensures Valid() && Written() == [] && this.hash == hash
      ensures fresh(chunk) && fresh(h)
    {
      this.hash := hash;
      chunk := new Byte[64](_ => 0);
      chunkPos := 0;
      spaceLeft := 64;
      totalLen := 0;
      h := new Word[8](i requires 0 <= i < 8 => Initial()[i]);
      blocks, rest := [], [];
      new;
      assert h[..] == Initial();
    }

    /** sha_256_write */
    method Write(data: seq<Byte>)
      requires Valid()
      requires |data| < 0x1_0000_0000_0000_0000
      modifies this, chunk, h
      ensures Valid() && Written() == old(Written()) + data
    {
      hide HashBlocks, Flatten, SizeT;
      SizeTAdds(|Written()|, |data|);
      totalLen := SizeT(totalLen + |data|);
      var p := 0;
      ghost var before := Written();
      while p < |data|
        invariant p <= |data|
        invariant Absorbed() && Written() == before + data[..p]
        invariant totalLen == SizeT(|before| + |data|)
      {
        if spaceLeft == 64 && |data| - p >= 64 {
          AbsorbWholeBlock(data[p..p + 64]);
          MoreData(before, data, p, p + 64);
          p := p + 64;
        } else {
          var consumed := if |data| - p < spaceLeft then |data| - p else spaceLeft;
          AbsorbThroughBuffer(data[p..p + consumed]);
          MoreData(before, data, p, p + consumed);
          p := p + consumed;
        }
      }
      assert data[..p] == data;
    }

    /** The copy-free branch of the write loop, lines 180-185. */
    method AbsorbWholeBlock(block: seq<Byte>)
      requires Absorbed() && spaceLeft == 64 == |block|
      modifies h, `blocks
      ensures Absorbed() && Written() == old(Written()) + block
    {
      hide Compress, HashBlocks, Flatten;
      OneMoreBlock(blocks, block);
      assert rest == [] && Flatten(blocks) + [] == Flatten(blocks);
      blocks := ConsumeInto(block, blocks);
      assert Flatten(blocks) + [] == Flatten(blocks);
    }

    /** The buffered branch of the write loop, lines 187-198. */
    method AbsorbThroughBuffer(piece: seq<Byte>)
      requires Absorbed() && 0 < |piece| <= spaceLeft
      modifies `chunkPos, `spaceLeft, `blocks, `rest, chunk, h
      ensures Absorbed() && Written() == old(Written()) + piece
    {
      hide Compress, HashBlocks, Flatten;
      CopyInto(chunk, chunkPos, piece);
      spaceLeft := spaceLeft - |piece|;
      rest := rest + piece;
      assert Written() == old(Written()) + piece;
      if spaceLeft == 0 {
        assert chunk[..] == rest;
        OneMoreBlock(blocks, rest);
        blocks := ConsumeInto(chunk[..], blocks);
        rest := [];
        chunkPos := 0;
        spaceLeft := 64;
      } else {
        chunkPos := chunkPos + |piece|;
      }
    }

    /** sha_256_close. The bound is the one the header states: the bit count must fit 64 bits. */
    method Close()
      requires Valid()
      requires |Written()| < 0x2000_0000_0000_0000
      modifies this, chunk, h, hash
      ensures hash[..] == Sha256(old(Written()))
    {
      hide Compress, HashBlocks, Flatten, Blocks, Pad, BigEndian, Initial, SizeT;
      SizeTFits(|Written()|);
      ghost var consumed, msg, first := blocks, Written(), [];
      var pos := chunkPos;
      var left := spaceLeft;
      chunk[pos] := 0x80;
      pos := pos + 1;
      left := left - 1;
      ghost var closing := rest + [0x80];
      assert chunk[..pos] == closing;
      if left < 8 {
        CopyInto(chunk, pos, Zeros(left));
        first := chunk[..];
        consumed := ConsumeInto(chunk[..], consumed);
        closing := [];
        pos := 0;
        left := 64;
      }
      CopyInto(chunk, pos, Zeros(left - 8));
      pos := pos + (left - 8);
      StoreBitLength(chunk, pos, totalLen);
      consumed := ConsumeInto(chunk[..], consumed);
      if closing == [] {
        PadInTwoBlocks(blocks, rest, msg, first, chunk[..]);
      } else {
        PadInOneBlock(blocks, rest, msg, chunk[..]);
      }
      StoreDigest(hash, h);
    }

    method ConsumeInto(block: seq<Byte>, ghost before: seq<Block>) returns (ghost after: seq<Block>)
      requires h.Length == 8 && |block| == 64 && h[..] == HashBlocks(before)
      modifies h
      ensures after == before + [block] && h[..] == HashBlocks(after)
    {
      hide Compress;
      ConsumeChunk(h, block);
      OneMoreBlock(before, block);
      after := before + [block];
    }
  }

  lemma {:induction false} PrefixIsNoLonger(pieces: seq<seq<Byte>>, i: nat)
    requires i < |pieces|
    ensures Concat(pieces[..i + 1]) == Concat(pieces[..i]) + pieces[i]
    ensures |Concat(pieces[..i + 1])| <= |Concat(pieces)|
    decreases |pieces|
  {
    assert pieces[..i + 1][..i] == pieces[..i];
    if i + 1 < |pieces| {
      var front := pieces[..|pieces| - 1];
      assert front[..i] == pieces[..i] && front[..i + 1] == pieces[..i + 1];
      PrefixIsNoLonger(front, i);
    } else {
      assert pieces[..i + 1] == pieces;
    }
  }

  lemma NoPieces(pieces: seq<seq<Byte>>)
    ensures Concat(pieces[..0]) == []
  {
  }

  /** The digest does not depend on how the input is cut into Write calls. */
  method DigestOfPieces(pieces: seq<seq<Byte>>) returns (digest: seq<Byte>)
    requires |Concat(pieces)| < 0x2000_0000_0000_0000
    ensures digest == Sha256(Concat(pieces))
  {
    hide Sha256, Flatten, HashBlocks, Concat;
    var hash := new Byte[32];
    var stream := new Stream(hash);
    assert Concat(pieces[..0]) == [] by { NoPieces(pieces); }
    for i := 0 to |pieces|
      invariant stream.Valid() && stream.hash == hash
      invariant stream.Written() == Concat(pieces[..i])
      invariant fresh(stream) && fresh(stream.chunk) && fresh(stream.h)
    {
      PrefixIsNoLonger(pieces, i);
      stream.Write(pieces[i]);
    }
    assert pieces[..|pieces|] == pieces;
    stream.Close();
    digest := hash[..];
  }

  /** calc_sha_256 */
  method CalcSha256(hash: array<Byte>, input: seq<Byte>)
    requires hash.Length == 32
    requires |input| < 0x2000_0000_0000_0000
    modifies hash
    ensures hash[..] == Sha256(input)
  {
    hide Sha256, Flatten, HashBlocks;
    var stream := new Stream(hash);
    stream.Write(input);
    assert stream.Written() == input;
    stream.Close();
  }

  method XorInto(dst: array<Byte>, src: seq<Byte>, b: Byte)
    requires dst.Length == |src|
    modifies dst
    ensures dst[..] == XorAll(src, b)
  {
    hide XorByte;
    for i := 0 to |src|
      invariant forall k :: 0 <= k < i ==> dst[k] == XorByte(src[k], b)
    {
      dst[i] := XorByte(src[i], b);
    }
  }

  /** hmac_sha256, for messages whose length and a block's together fit in an int: the key
      block is built once and xored twice, and the inner digest passes through the caller's
      buffer. */
  method HmacSha256(hmac: array<Byte>, msg: seq<Byte>, key: seq<Byte>)
    requires hmac.Length == 32
    requires |msg| < 0x7fff_ffc0 && |key| < 0x1_0000_0000
    modifies hmac
    ensures hmac[..] == Hmac(key, msg)
  {
    hide Sha256;
    var keyprime := new Byte[64](_ => 0);
    if |key| > 64 {
      var digest := new Byte[32];
      CalcSha256(digest, key);
      CopyInto(keyprime, 0, digest[..]);
    } else {
      CopyInto(keyprime, 0, key);
    }
    assert keyprime[..] == BlockKey(key);
    hide BlockKey;
    var keymod := new Byte[64];
    XorInto(keymod, keyprime[..], 0x36);
    CalcSha256(hmac, keymod[..] + msg);
    XorInto(keymod, keyprime[..], 0x5c);
    CalcSha256(hmac, keymod[..] + hmac[..]);
  }
}
