/** Where the constants of SHA-256 come from: the first 32 bits of the fractional parts of the
    cube roots of the first 64 primes (section 4.2.2 of FIPS 180-4) and of the square roots of
    the first eight (section 5.3.3). */
module ShaConstants {
  import opened Fips180

  // ----- primes -----

  ghost predicate IsPrime(n: nat) { n >= 2 && forall d: nat :: 2 <= d < n ==> n % d != 0 }

  /** How many primes there are below n. */
  ghost function PrimesBelow(n: nat): nat {
    if n == 0 then 0 else PrimesBelow(n - 1) + if IsPrime(n - 1) then 1 else 0
  }

  /** p is the prime with t primes below it. */
  ghost predicate IsNthPrime(p: nat, t: nat) { IsPrime(p) && PrimesBelow(p) == t }

  predicate HasSmallFactor(n: nat) {
    n % 2 == 0 || n % 3 == 0 || n % 5 == 0 || n % 7 == 0 || n % 11 == 0 || n % 13 == 0 || n % 17 == 0
  }

  /** Not divisible by the primes below 19, or one of them. */
  predicate Sieved(n: nat) {
    n == 2 || n == 3 || n == 5 || n == 7 || n == 11 || n == 13 || n == 17 || (n > 17 && !HasSmallFactor(n))
  }

  lemma SmallFactor(x: nat)
    requires 2 <= x <= 18
    ensures HasSmallFactor(x)
  {
  }

  lemma Multiple2(x: nat, y: nat)
    requires x % 2 == 0
    ensures x * y % 2 == 0
  {
    var z := x / 2;
    assert x * y == 2 * (z * y);
  }

  lemma Multiple3(x: nat, y: nat)
    requires x % 3 == 0
    ensures x * y % 3 == 0
  {
    var z := x / 3;
    assert x * y == 3 * (z * y);
  }

  lemma Multiple5(x: nat, y: nat)
    requires x % 5 == 0
    ensures x * y % 5 == 0
  {
    var z := x / 5;
    assert x * y == 5 * (z * y);
  }

  lemma Multiple7(x: nat, y: nat)
    requires x % 7 == 0
    ensures x * y % 7 == 0
  {
    var z := x / 7;
    assert x * y == 7 * (z * y);
  }

  lemma Multiple11(x: nat, y: nat)
    requires x % 11 == 0
    ensures x * y % 11 == 0
  {
    var z := x / 11;
    assert x * y == 11 * (z * y);
  }

  lemma Multiple13(x: nat, y: nat)
    requires x % 13 == 0
    ensures x * y % 13 == 0
  {
    var z := x / 13;
    assert x * y == 13 * (z * y);
  }

  lemma Multiple17(x: nat, y: nat)
    requires x % 17 == 0
    ensures x * y % 17 == 0
  {
    var z := x / 17;
    assert x * y == 17 * (z * y);
  }

  lemma FactorsOfProduct(x: nat, y: nat)
    requires HasSmallFactor(x)
    ensures HasSmallFactor(x * y)
  {
    if x % 2 == 0 {
      Multiple2(x, y);
    } else if x % 3 == 0 {
      Multiple3(x, y);
    } else if x % 5 == 0 {
      Multiple5(x, y);
    } else if x % 7 == 0 {
      Multiple7(x, y);
    } else if x % 11 == 0 {
      Multiple11(x, y);
    } else if x % 13 == 0 {
      Multiple13(x, y);
    } else if x % 17 == 0 {
      Multiple17(x, y);
    }
  }

  lemma SmallOfTwo(d: nat, e: nat)
    ensures d * e < 361 ==> d <= 18 || e <= 18
  {
    if d >= 19 && e >= 19 {
      assert d * e == 19 * e + (d - 19) * e;
    }
  }

  lemma HasDivisor(n: nat)
    requires n > 17 && HasSmallFactor(n)
    ensures !IsPrime(n)
  {
    assert n % 2 == 0 || n % 3 == 0 || n % 5 == 0 || n % 7 == 0 || n % 11 == 0 || n % 13 == 0 || n % 17 == 0;
  }

  lemma SmallPrimes(n: nat)
    requires n <= 17
    ensures IsPrime(n) <==> n in {2, 3, 5, 7, 11, 13, 17}
  {
    assert 4 % 2 == 0 && 6 % 2 == 0 && 8 % 2 == 0 && 9 % 3 == 0 && 10 % 2 == 0 && 12 % 2 == 0 && 14 % 2 == 0
      && 15 % 3 == 0 && 16 % 2 == 0;
  }

  /** Below 19 squared the sieve finds exactly the primes. */
  lemma SieveIsPrime(n: nat)
    requires n < 361
    ensures Sieved(n) <==> IsPrime(n)
  {
    hide HasSmallFactor;
    if n > 17 && !HasSmallFactor(n) {
      forall d: nat | 2 <= d < n
        ensures n % d != 0
      {
        if n % d == 0 {
          var e := n / d;
          assert n == d * e && e >= 2;
          SmallOfTwo(d, e);
          if d <= 18 {
            SmallFactor(d);
            FactorsOfProduct(d, e);
          } else {
            SmallFactor(e);
            FactorsOfProduct(e, d);
          }
        }
      }
    }
    if n > 17 && HasSmallFactor(n) {
      HasDivisor(n);
    }
    if n <= 17 {
      SmallPrimes(n);
    }
  }

  function SievedBelow(n: nat): nat {
    if n == 0 then 0 else SievedBelow(n - 1) + if Sieved(n - 1) then 1 else 0
  }

  lemma {:induction false} SieveCounts(n: nat)
    requires n <= 361
    ensures SievedBelow(n) == PrimesBelow(n)
  {
    hide Sieved, IsPrime;
    if n > 0 {
      SieveCounts(n - 1);
      SieveIsPrime(n - 1);
    }
  }

  /** None of the numbers from n on and below q gets through the sieve. */
  predicate NoneFrom(n: nat, q: nat)
    decreases q - n
  {
    n >= q || (!Sieved(n) && NoneFrom(n + 1, q))
  }

  lemma {:induction false} NoneCounted(n: nat, q: nat)
    requires n <= q && NoneFrom(n, q)
    ensures SievedBelow(q) == SievedBelow(n)
    decreases q - n
  {
    hide Sieved;
    if n < q {
      NoneCounted(n + 1, q);
    }
  }

  /** q is the next after p. */
  lemma NextPrime(t: nat, p: nat, n: nat, q: nat)
    requires p + 1 == n <= q < 361 && IsNthPrime(p, t) && NoneFrom(n, q) && Sieved(q)
    ensures IsNthPrime(q, t + 1)
  {
    hide Sieved, IsPrime;
    SieveIsPrime(p);
    SieveIsPrime(q);
    SieveCounts(p);
    SieveCounts(q);
    NoneCounted(n, q);
  }

  lemma FirstPrime()
    ensures IsNthPrime(2, 0)
  {
    SieveIsPrime(0);
    SieveIsPrime(1);
    assert PrimesBelow(1) == 0;
  }

  lemma Primes0()
    ensures IsNthPrime(2, 0) && IsNthPrime(3, 1) && IsNthPrime(5, 2) && IsNthPrime(7, 3)
  {
    hide IsNthPrime;
    FirstPrime();
    NextPrime(0, 2, 3, 3);
    NextPrime(1, 3, 4, 5);
    NextPrime(2, 5, 6, 7);
  }

  lemma Primes4()
    ensures IsNthPrime(11, 4) && IsNthPrime(13, 5) && IsNthPrime(17, 6) && IsNthPrime(19, 7)
  {
    hide IsNthPrime;
    Primes0();
    NextPrime(3, 7, 8, 11);
    NextPrime(4, 11, 12, 13);
    NextPrime(5, 13, 14, 17);
    NextPrime(6, 17, 18, 19);
  }

  lemma Primes8()
    ensures IsNthPrime(23, 8) && IsNthPrime(29, 9) && IsNthPrime(31, 10) && IsNthPrime(37, 11)
  {
    hide IsNthPrime;
    Primes4();
    NextPrime(7, 19, 20, 23);
    NextPrime(8, 23, 24, 29);
    NextPrime(9, 29, 30, 31);
    NextPrime(10, 31, 32, 37);
  }

  lemma Primes12()
    ensures IsNthPrime(41, 12) && IsNthPrime(43, 13) && IsNthPrime(47, 14) && IsNthPrime(53, 15)
  {
    hide IsNthPrime;
    Primes8();
    NextPrime(11, 37, 38, 41);
    NextPrime(12, 41, 42, 43);
    NextPrime(13, 43, 44, 47);
    NextPrime(14, 47, 48, 53);
  }

  lemma Primes16()
    ensures IsNthPrime(59, 16) && IsNthPrime(61, 17) && IsNthPrime(67, 18) && IsNthPrime(71, 19)
  {
    hide IsNthPrime;
    Primes12();
    NextPrime(15, 53, 54, 59);
    NextPrime(16, 59, 60, 61);
    NextPrime(17, 61, 62, 67);
    NextPrime(18, 67, 68, 71);
  }

  lemma Primes20()
    ensures IsNthPrime(73, 20) && IsNthPrime(79, 21) && IsNthPrime(83, 22) && IsNthPrime(89, 23)
  {
    hide IsNthPrime;
    Primes16();
    NextPrime(19, 71, 72, 73);
    NextPrime(20, 73, 74, 79);
    NextPrime(21, 79, 80, 83);
    NextPrime(22, 83, 84, 89);
  }

  lemma Primes24()
    ensures IsNthPrime(97, 24) && IsNthPrime(101, 25) && IsNthPrime(103, 26) && IsNthPrime(107, 27)
  {
    hide IsNthPrime;
    Primes20();
    NextPrime(23, 89, 90, 97);
    NextPrime(24, 97, 98, 101);
    NextPrime(25, 101, 102, 103);
    NextPrime(26, 103, 104, 107);
  }

  lemma Primes28()
    ensures IsNthPrime(109, 28) && IsNthPrime(113, 29) && IsNthPrime(127, 30) && IsNthPrime(131, 31)
  {
    hide IsNthPrime;
    Primes24();
    NextPrime(27, 107, 108, 109);
    NextPrime(28, 109, 110, 113);
    NextPrime(29, 113, 114, 127);
    NextPrime(30, 127, 128, 131);
  }

  lemma Primes32()
    ensures IsNthPrime(137, 32) && IsNthPrime(139, 33) && IsNthPrime(149, 34) && IsNthPrime(151, 35)
  {
    hide IsNthPrime;
    Primes28();
    NextPrime(31, 131, 132, 137);
    NextPrime(32, 137, 138, 139);
    NextPrime(33, 139, 140, 149);
    NextPrime(34, 149, 150, 151);
  }

  lemma Primes36()
    ensures IsNthPrime(157, 36) && IsNthPrime(163, 37) && IsNthPrime(167, 38) && IsNthPrime(173, 39)
  {
    hide IsNthPrime;
    Primes32();
    NextPrime(35, 151, 152, 157);
    NextPrime(36, 157, 158, 163);
    NextPrime(37, 163, 164, 167);
    NextPrime(38, 167, 168, 173);
  }

  lemma Primes40()
    ensures IsNthPrime(179, 40) && IsNthPrime(181, 41) && IsNthPrime(191, 42) && IsNthPrime(193, 43)
  {
    hide IsNthPrime;
    Primes36();
    NextPrime(39, 173, 174, 179);
    NextPrime(40, 179, 180, 181);
    NextPrime(41, 181, 182, 191);
    NextPrime(42, 191, 192, 193);
  }

  lemma Primes44()
    ensures IsNthPrime(197, 44) && IsNthPrime(199, 45) && IsNthPrime(211, 46) && IsNthPrime(223, 47)
  {
    hide IsNthPrime;
    Primes40();
    NextPrime(43, 193, 194, 197);
    NextPrime(44, 197, 198, 199);
    NextPrime(45, 199, 200, 211);
    NextPrime(46, 211, 212, 223);
  }

  lemma Primes48()
    ensures IsNthPrime(227, 48) && IsNthPrime(229, 49) && IsNthPrime(233, 50) && IsNthPrime(239, 51)
  {
    hide IsNthPrime;
    Primes44();
    NextPrime(47, 223, 224, 227);
    NextPrime(48, 227, 228, 229);
    NextPrime(49, 229, 230, 233);
    NextPrime(50, 233, 234, 239);
  }

  lemma Primes52()
    ensures IsNthPrime(241, 52) && IsNthPrime(251, 53) && IsNthPrime(257, 54) && IsNthPrime(263, 55)
  {
    hide IsNthPrime;
    Primes48();
    NextPrime(51, 239, 240, 241);
    NextPrime(52, 241, 242, 251);
    NextPrime(53, 251, 252, 257);
    NextPrime(54, 257, 258, 263);
  }

  lemma Primes56()
    ensures IsNthPrime(269, 56) && IsNthPrime(271, 57) && IsNthPrime(277, 58) && IsNthPrime(281, 59)
  {
    hide IsNthPrime;
    Primes52();
    NextPrime(55, 263, 264, 269);
    NextPrime(56, 269, 270, 271);
    NextPrime(57, 271, 272, 277);
    NextPrime(58, 277, 278, 281);
  }

  lemma Primes60()
    ensures IsNthPrime(283, 60) && IsNthPrime(293, 61) && IsNthPrime(307, 62) && IsNthPrime(311, 63)
  {
    hide IsNthPrime;
    Primes56();
    NextPrime(59, 281, 282, 283);
    NextPrime(60, 283, 284, 293);
    NextPrime(61, 293, 294, 307);
    NextPrime(62, 307, 308, 311);
  }

  // ----- roots -----

  /** k is the first 32 bits of the fraction of the cube root of p, and q its whole part. */
  predicate IsCubeRoot(p: nat, q: nat, k: Word) {
    var c := q * 0x1_0000_0000 + k as int;
    c * c * c <= p * 0x1_0000_0000_0000_0000_0000_0000 < (c + 1) * (c + 1) * (c + 1)
  }

  predicate IsSquareRoot(p: nat, q: nat, k: Word) {
    var c := q * 0x1_0000_0000 + k as int;
    c * c <= p * 0x1_0000_0000_0000_0000 < (c + 1) * (c + 1)
  }

  ghost predicate FromCubeRoot(t: nat, k: Word) {
    exists p, q :: IsNthPrime(p, t) && IsCubeRoot(p, q, k)
  }

  ghost predicate FromSquareRoot(t: nat, k: Word) {
    exists p, q :: IsNthPrime(p, t) && IsSquareRoot(p, q, k)
  }

  lemma CubeRoot(t: nat, p: nat, c: nat, q: nat, k: Word)
    requires IsNthPrime(p, t) && c == q * 0x1_0000_0000 + k as int
    requires c * c * c <= p * 0x1_0000_0000_0000_0000_0000_0000 < (c + 1) * (c + 1) * (c + 1)
    ensures FromCubeRoot(t, k)
  {
    hide IsNthPrime;
    assert IsCubeRoot(p, q, k);
  }

  lemma SquareRoot(t: nat, p: nat, c: nat, q: nat, k: Word)
    requires IsNthPrime(p, t) && c == q * 0x1_0000_0000 + k as int
    requires c * c <= p * 0x1_0000_0000_0000_0000 < (c + 1) * (c + 1)
    ensures FromSquareRoot(t, k)
  {
    hide IsNthPrime;
    assert IsSquareRoot(p, q, k);
  }

  lemma Roots0()
    ensures forall t: nat :: 0 <= t < 4 ==> FromCubeRoot(t, K(t))
  {
    hide IsNthPrime, FromCubeRoot;
    Primes0();
    CubeRoot(0, 2, 0x1428a2f98, 1, 0x428a2f98);
    CubeRoot(1, 3, 0x171374491, 1, 0x71374491);
    CubeRoot(2, 5, 0x1b5c0fbcf, 1, 0xb5c0fbcf);
    CubeRoot(3, 7, 0x1e9b5dba5, 1, 0xe9b5dba5);
    assert K(0) == 0x428a2f98 && K(1) == 0x71374491 && K(2) == 0xb5c0fbcf && K(3) == 0xe9b5dba5;
  }

  lemma Roots4()
    ensures forall t: nat :: 4 <= t < 8 ==> FromCubeRoot(t, K(t))
  {
    hide IsNthPrime, FromCubeRoot;
    Primes4();
    CubeRoot(4, 11, 0x23956c25b, 2, 0x3956c25b);
    CubeRoot(5, 13, 0x259f111f1, 2, 0x59f111f1);
    CubeRoot(6, 17, 0x2923f82a4, 2, 0x923f82a4);
    CubeRoot(7, 19, 0x2ab1c5ed5, 2, 0xab1c5ed5);
    assert K(4) == 0x3956c25b && K(5) == 0x59f111f1 && K(6) == 0x923f82a4 && K(7) == 0xab1c5ed5;
  }

  lemma Roots8()
    ensures forall t: nat :: 8 <= t < 12 ==> FromCubeRoot(t, K(t))
  {
    hide IsNthPrime, FromCubeRoot;
    Primes8();
    CubeRoot(8, 23, 0x2d807aa98, 2, 0xd807aa98);
    CubeRoot(9, 29, 0x312835b01, 3, 0x12835b01);
    CubeRoot(10, 31, 0x3243185be, 3, 0x243185be);
    CubeRoot(11, 37, 0x3550c7dc3, 3, 0x550c7dc3);
    assert K(8) == 0xd807aa98 && K(9) == 0x12835b01 && K(10) == 0x243185be && K(11) == 0x550c7dc3;
  }

  lemma Roots12()
    ensures forall t: nat :: 12 <= t < 16 ==> FromCubeRoot(t, K(t))
  {
    hide IsNthPrime, FromCubeRoot;
    Primes12();
    CubeRoot(12, 41, 0x372be5d74, 3, 0x72be5d74);
    CubeRoot(13, 43, 0x380deb1fe, 3, 0x80deb1fe);
    CubeRoot(14, 47, 0x39bdc06a7, 3, 0x9bdc06a7);
    CubeRoot(15, 53, 0x3c19bf174, 3, 0xc19bf174);
    assert K(12) == 0x72be5d74 && K(13) == 0x80deb1fe && K(14) == 0x9bdc06a7 && K(15) == 0xc19bf174;
  }

  lemma Roots16()
    ensures forall t: nat :: 16 <= t < 20 ==> FromCubeRoot(t, K(t))
  {
    hide IsNthPrime, FromCubeRoot;
    Primes16();
    CubeRoot(16, 59, 0x3e49b69c1, 3, 0xe49b69c1);
    CubeRoot(17, 61, 0x3efbe4786, 3, 0xefbe4786);
    CubeRoot(18, 67, 0x40fc19dc6, 4, 0xfc19dc6);
    CubeRoot(19, 71, 0x4240ca1cc, 4, 0x240ca1cc);
    assert K(16) == 0xe49b69c1 && K(17) == 0xefbe4786 && K(18) == 0xfc19dc6 && K(19) == 0x240ca1cc;
  }

  lemma Roots20()
    ensures forall t: nat :: 20 <= t < 24 ==> FromCubeRoot(t, K(t))
  {
    hide IsNthPrime, FromCubeRoot;
    Primes20();
    CubeRoot(20, 73, 0x42de92c6f, 4, 0x2de92c6f);
    CubeRoot(21, 79, 0x44a7484aa, 4, 0x4a7484aa);
    CubeRoot(22, 83, 0x45cb0a9dc, 4, 0x5cb0a9dc);
    CubeRoot(23, 89, 0x476f988da, 4, 0x76f988da);
    assert K(20) == 0x2de92c6f && K(21) == 0x4a7484aa && K(22) == 0x5cb0a9dc && K(23) == 0x76f988da;
  }

  lemma Roots24()
    ensures forall t: nat :: 24 <= t < 28 ==> FromCubeRoot(t, K(t))
  {
    hide IsNthPrime, FromCubeRoot;
    Primes24();
    CubeRoot(24, 97, 0x4983e5152, 4, 0x983e5152);
    CubeRoot(25, 101, 0x4a831c66d, 4, 0xa831c66d);
    CubeRoot(26, 103, 0x4b00327c8, 4, 0xb00327c8);
    CubeRoot(27, 107, 0x4bf597fc7, 4, 0xbf597fc7);
    assert K(24) == 0x983e5152 && K(25) == 0xa831c66d && K(26) == 0xb00327c8 && K(27) == 0xbf597fc7;
  }

  lemma Roots28()
    ensures forall t: nat :: 28 <= t < 32 ==> FromCubeRoot(t, K(t))
  {
    hide IsNthPrime, FromCubeRoot;
    Primes28();
    CubeRoot(28, 109, 0x4c6e00bf3, 4, 0xc6e00bf3);
    CubeRoot(29, 113, 0x4d5a79147, 4, 0xd5a79147);
    CubeRoot(30, 127, 0x506ca6351, 5, 0x6ca6351);
    CubeRoot(31, 131, 0x514292967, 5, 0x14292967);
    assert K(28) == 0xc6e00bf3 && K(29) == 0xd5a79147 && K(30) == 0x6ca6351 && K(31) == 0x14292967;
  }

  lemma Roots32()
    ensures forall t: nat :: 32 <= t < 36 ==> FromCubeRoot(t, K(t))
  {
    hide IsNthPrime, FromCubeRoot;
    Primes32();
    CubeRoot(32, 137, 0x527b70a85, 5, 0x27b70a85);
    CubeRoot(33, 139, 0x52e1b2138, 5, 0x2e1b2138);
    CubeRoot(34, 149, 0x54d2c6dfc, 5, 0x4d2c6dfc);
    CubeRoot(35, 151, 0x553380d13, 5, 0x53380d13);
    assert K(32) == 0x27b70a85 && K(33) == 0x2e1b2138 && K(34) == 0x4d2c6dfc && K(35) == 0x53380d13;
  }

  lemma Roots36()
    ensures forall t: nat :: 36 <= t < 40 ==> FromCubeRoot(t, K(t))
  {
    hide IsNthPrime, FromCubeRoot;
    Primes36();
    CubeRoot(36, 157, 0x5650a7354, 5, 0x650a7354);
    CubeRoot(37, 163, 0x5766a0abb, 5, 0x766a0abb);
    CubeRoot(38, 167, 0x581c2c92e, 5, 0x81c2c92e);
    CubeRoot(39, 173, 0x592722c85, 5, 0x92722c85);
    assert K(36) == 0x650a7354 && K(37) == 0x766a0abb && K(38) == 0x81c2c92e && K(39) == 0x92722c85;
  }

  lemma Roots40()
    ensures forall t: nat :: 40 <= t < 44 ==> FromCubeRoot(t, K(t))
  {
    hide IsNthPrime, FromCubeRoot;
    Primes40();
    CubeRoot(40, 179, 0x5a2bfe8a1, 5, 0xa2bfe8a1);
    CubeRoot(41, 181, 0x5a81a664b, 5, 0xa81a664b);
    CubeRoot(42, 191, 0x5c24b8b70, 5, 0xc24b8b70);
    CubeRoot(43, 193, 0x5c76c51a3, 5, 0xc76c51a3);
    assert K(40) == 0xa2bfe8a1 && K(41) == 0xa81a664b && K(42) == 0xc24b8b70 && K(43) == 0xc76c51a3;
  }

  lemma Roots44()
    ensures forall t: nat :: 44 <= t < 48 ==> FromCubeRoot(t, K(t))
  {
    hide IsNthPrime, FromCubeRoot;
    Primes44();
    CubeRoot(44, 197, 0x5d192e819, 5, 0xd192e819);
    CubeRoot(45, 199, 0x5d6990624, 5, 0xd6990624);
    CubeRoot(46, 211, 0x5f40e3585, 5, 0xf40e3585);
    CubeRoot(47, 223, 0x6106aa070, 6, 0x106aa070);
    assert K(44) == 0xd192e819 && K(45) == 0xd6990624 && K(46) == 0xf40e3585 && K(47) == 0x106aa070;
  }

  lemma Roots48()
    ensures forall t: nat :: 48 <= t < 52 ==> FromCubeRoot(t, K(t))
  {
    hide IsNthPrime, FromCubeRoot;
    Primes48();
    CubeRoot(48, 227, 0x619a4c116, 6, 0x19a4c116);
    CubeRoot(49, 229, 0x61e376c08, 6, 0x1e376c08);
    CubeRoot(50, 233, 0x62748774c, 6, 0x2748774c);
    CubeRoot(51, 239, 0x634b0bcb5, 6, 0x34b0bcb5);
    assert K(48) == 0x19a4c116 && K(49) == 0x1e376c08 && K(50) == 0x2748774c && K(51) == 0x34b0bcb5;
  }

  lemma Roots52()
    ensures forall t: nat :: 52 <= t < 56 ==> FromCubeRoot(t, K(t))
  {
    hide IsNthPrime, FromCubeRoot;
    Primes52();
    CubeRoot(52, 241, 0x6391c0cb3, 6, 0x391c0cb3);
    CubeRoot(53, 251, 0x64ed8aa4a, 6, 0x4ed8aa4a);
    CubeRoot(54, 257, 0x65b9cca4f, 6, 0x5b9cca4f);
    CubeRoot(55, 263, 0x6682e6ff3, 6, 0x682e6ff3);
    assert K(52) == 0x391c0cb3 && K(53) == 0x4ed8aa4a && K(54) == 0x5b9cca4f && K(55) == 0x682e6ff3;
  }

  lemma Roots56()
    ensures forall t: nat :: 56 <= t < 60 ==> FromCubeRoot(t, K(t))
  {
    hide IsNthPrime, FromCubeRoot;
    Primes56();
    CubeRoot(56, 269, 0x6748f82ee, 6, 0x748f82ee);
    CubeRoot(57, 271, 0x678a5636f, 6, 0x78a5636f);
    CubeRoot(58, 277, 0x684c87814, 6, 0x84c87814);
    CubeRoot(59, 281, 0x68cc70208, 6, 0x8cc70208);
    assert K(56) == 0x748f82ee && K(57) == 0x78a5636f && K(58) == 0x84c87814 && K(59) == 0x8cc70208;
  }

  lemma Roots60()
    ensures forall t: nat :: 60 <= t < 64 ==> FromCubeRoot(t, K(t))
  {
    hide IsNthPrime, FromCubeRoot;
    Primes60();
    CubeRoot(60, 283, 0x690befffa, 6, 0x90befffa);
    CubeRoot(61, 293, 0x6a4506ceb, 6, 0xa4506ceb);
    CubeRoot(62, 307, 0x6bef9a3f7, 6, 0xbef9a3f7);
    CubeRoot(63, 311, 0x6c67178f2, 6, 0xc67178f2);
    assert K(60) == 0x90befffa && K(61) == 0xa4506ceb && K(62) == 0xbef9a3f7 && K(63) == 0xc67178f2;
  }

  /** Section 4.2.2: each constant is that of its prime's cube root. */
  lemma ConstantsAreCubeRoots(t: nat)
    requires t < 64
    ensures FromCubeRoot(t, K(t))
  {
    hide FromCubeRoot, K;
    Roots0();
    Roots4();
    Roots8();
    Roots12();
    Roots16();
    Roots20();
    Roots24();
    Roots28();
    Roots32();
    Roots36();
    Roots40();
    Roots44();
    Roots48();
    Roots52();
    Roots56();
    Roots60();
  }

  /** Section 5.3.3: each initial word is that of its prime's square root. */
  lemma InitialAreSquareRoots(t: nat)
    requires t < 8
    ensures FromSquareRoot(t, Initial()[t])
  {
    hide IsNthPrime, FromSquareRoot;
    Primes0();
    Primes4();
    SquareRoot(0, 2, 0x16a09e667, 1, 0x6a09e667);
    SquareRoot(1, 3, 0x1bb67ae85, 1, 0xbb67ae85);
    SquareRoot(2, 5, 0x23c6ef372, 2, 0x3c6ef372);
    SquareRoot(3, 7, 0x2a54ff53a, 2, 0xa54ff53a);
    SquareRoot(4, 11, 0x3510e527f, 3, 0x510e527f);
    SquareRoot(5, 13, 0x39b05688c, 3, 0x9b05688c);
    SquareRoot(6, 17, 0x41f83d9ab, 4, 0x1f83d9ab);
    SquareRoot(7, 19, 0x45be0cd19, 4, 0x5be0cd19);
  }
}
