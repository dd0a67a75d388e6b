/** `hash_func`: a polynomial hash of a device id, with the widths of the C types written out. */
module Hash {
  const HASH_SIZE := 10001
  const MAX_MSG := 1200
  const WORD32 := 0x1_0000_0000
  const WORD64 := 0x1_0000_0000_0000_0000
  /** `WORD64 % HASH_SIZE`. */
  const WORD64_RESIDUE := 6499

  /** A C `char`, signed as on the platforms the code is built for. */
  type Char8 = c: int | -128 <= c < 128

  function Pow71(i: nat): int {
    if i == 0 then 1 else Pow71(i - 1) * 71
  }

  /** The sum of `id[i] * 71^i`. */
  function Polynomial(id: seq<Char8>): int {
    if id == [] then 0 else Polynomial(id[..|id| - 1]) + id[|id| - 1] * Pow71(|id| - 1)
  }

  /** How many characters have the top bit set. */
  function Negatives(id: seq<Char8>): nat {
    if id == [] then 0 else Negatives(id[..|id| - 1]) + if id[|id| - 1] < 0 then 1 else 0
  }

  /** The hash in closed form: each negative character contributes an extra `2^64`, because it is widened
      to an unsigned 64-bit word before the multiplication. */
  function HashValue(id: seq<Char8>): int {
    (Polynomial(id) + Negatives(id) * WORD64_RESIDUE) % HASH_SIZE
  }

  lemma MulMod(c: int, p: int)
    ensures (c * (p % HASH_SIZE)) % HASH_SIZE == (c * p) % HASH_SIZE
  {
    var q, k := p / HASH_SIZE, p % HASH_SIZE;
    assert c * p == c * k + HASH_SIZE * (c * q) by {
      assert p == HASH_SIZE * q + k;
      assert c * p == c * (HASH_SIZE * q) + c * k;
    }
    SameResidue(c * p, c * k, c * q);
  }

  lemma SameResidue(a: int, b: int, q: int)
    requires a == b + HASH_SIZE * q
    ensures a % HASH_SIZE == b % HASH_SIZE
  {
  }

  /** 71 has the inverse 9015, so its powers never vanish modulo the table size. */
  lemma {:induction false} PowNotZero(i: nat)
    ensures Pow71(i) % HASH_SIZE != 0
  {
    if i > 0 {
      PowNotZero(i - 1);
      var k, q := Pow71(i - 1), Pow71(i) / HASH_SIZE;
      if Pow71(i) % HASH_SIZE == 0 {
        assert 71 * k == HASH_SIZE * q;
        assert k == 0 + HASH_SIZE * (9015 * q - 64 * k);
        SameResidue(k, 0, 9015 * q - 64 * k);
        assert false;
      }
    }
  }

  /** One term: a `char` widened to 64 bits, times the reduced power, wrapped, then reduced. */
  lemma TermResidue(c: Char8, k: int)
    requires 0 < k < HASH_SIZE
    ensures ((c % WORD64) * k) % WORD64 % HASH_SIZE == (c * k + if c < 0 then WORD64_RESIDUE else 0) % HASH_SIZE
  {
    SmallProduct(c, k);
    if c < 0 {
      Distribute(c, WORD64, k);
      assert c % WORD64 == c + WORD64;
      WrapNegative(c * k, k);
    } else {
      assert (c * k) % WORD64 == c * k;
    }
  }

  lemma Distribute(a: int, b: int, k: int)
    ensures (a + b) * k == a * k + b * k
  {
  }

  /** A small negative product wraps to just below 2^64. */
  lemma WrapNegative(x: int, k: int)
    requires -WORD64 < x < 0 && 0 < k
    ensures (x + WORD64 * k) % WORD64 % HASH_SIZE == (x + WORD64_RESIDUE) % HASH_SIZE
  {
    assert x + WORD64 * k == x + WORD64 + WORD64 * (k - 1);
    assert (x + WORD64 * k) % WORD64 == x + WORD64;
    assert WORD64 == WORD64_RESIDUE + HASH_SIZE * 1844489958375117;
    SameResidue(x + WORD64, x + WORD64_RESIDUE, 1844489958375117);
  }

  lemma SmallProduct(c: Char8, k: int)
    requires 0 < k < HASH_SIZE
    ensures c >= 0 ==> 0 <= c * k < 128 * HASH_SIZE
    ensures c < 0 ==> -128 * HASH_SIZE < c * k < 0
  {
  }

  /** Reducing the summands at every step does not change the residue of the sum. */
  lemma Accumulate(res: int, h: int, product: int, full: int, extra: int, term: int)
    requires res % HASH_SIZE == h % HASH_SIZE && product % HASH_SIZE == full % HASH_SIZE
    requires term == (product + extra) % HASH_SIZE
    ensures (res + term) % HASH_SIZE == (h + full + extra) % HASH_SIZE
  {
    SameResidue(res + term, h + full + extra,
      res / HASH_SIZE - h / HASH_SIZE + product / HASH_SIZE - full / HASH_SIZE - (product + extra) / HASH_SIZE);
  }

  /** Adding a term to a partial hash. */
  lemma AddTerm(id: seq<Char8>, i: nat, res: int, k: int, term: int)
    requires i < |id| && k == Pow71(i) % HASH_SIZE
    requires res % HASH_SIZE == HashValue(id[..i])
    requires term == (id[i] * k + if id[i] < 0 then WORD64_RESIDUE else 0) % HASH_SIZE
    ensures (res + term) % HASH_SIZE == HashValue(id[..i + 1])
  {
    var c, extra := id[i], if id[i] < 0 then WORD64_RESIDUE else 0;
    var p, n := Polynomial(id[..i]), Negatives(id[..i]);
    MulMod(c, Pow71(i));
    Accumulate(res, p + n * WORD64_RESIDUE, c * k, c * Pow71(i), extra, term);
    Extend(id, i);
    assert Negatives(id[..i + 1]) * WORD64_RESIDUE == n * WORD64_RESIDUE + extra;
  }

  lemma Extend(id: seq<Char8>, i: nat)
    requires i < |id|
    ensures Polynomial(id[..i + 1]) == Polynomial(id[..i]) + id[i] * Pow71(i)
    ensures Negatives(id[..i + 1]) == Negatives(id[..i]) + if id[i] < 0 then 1 else 0
  {
    assert id[..i + 1][..i] == id[..i];
  }

  lemma PowStep(j: nat, k: int)
    requires k == Pow71(j) % HASH_SIZE
    ensures (k * 71) % WORD64 % HASH_SIZE == Pow71(j + 1) % HASH_SIZE
  {
    assert 0 <= k * 71 < WORD64;
    MulMod(71, Pow71(j));
  }

  /** The inner loop: 71 to the power `i`, reduced at every step. */
  method PowerLoop(i: nat) returns (k: int)
    ensures k == Pow71(i) % HASH_SIZE && 0 < k < HASH_SIZE
  {
    k := 1;
    var j := 0;
    while j < i
      invariant 0 <= j <= i && k == Pow71(j) % HASH_SIZE
    {
      PowStep(j, k);
      k := (k * 71) % WORD64;
      k := k % HASH_SIZE;
      j := j + 1;
    }
    PowNotZero(i);
  }

  /** What one character adds: widened to 64 bits, multiplied, wrapped, reduced. */
  method Term(c: Char8, k: int) returns (term: int)
    requires 0 < k < HASH_SIZE
    ensures 0 <= term < HASH_SIZE && term == (c * k + if c < 0 then WORD64_RESIDUE else 0) % HASH_SIZE
  {
    TermResidue(c, k);
    term := ((c % WORD64) * k) % WORD64 % HASH_SIZE;
  }

  /** One round of the outer loop. */
  method AddChar(id: seq<Char8>, i: nat, sum: int) returns (res: int)
    requires i < |id| && 0 <= sum < WORD32
    ensures 0 <= res < WORD32
    ensures |id| <= MAX_MSG && sum <= i * (HASH_SIZE - 1) ==> res <= (i + 1) * (HASH_SIZE - 1)
    ensures |id| <= MAX_MSG && sum <= i * (HASH_SIZE - 1) && sum % HASH_SIZE == HashValue(id[..i]) ==>
            res % HASH_SIZE == HashValue(id[..i + 1])
  {
    var k := PowerLoop(i);
    var term := Term(id[i], k);
    res := (sum + term) % WORD32;
    if |id| <= MAX_MSG && sum <= i * (HASH_SIZE - 1) {
      assert res == sum + term;
      if sum % HASH_SIZE == HashValue(id[..i]) {
        AddTerm(id, i, sum, k, term);
        assert res % HASH_SIZE == HashValue(id[..i + 1]);
      }
    }
  }

  method HashFunc(id: seq<Char8>) returns (res: int)
    ensures 0 <= res < HASH_SIZE
    ensures |id| <= MAX_MSG ==> res == HashValue(id)
  {
    res := 0;
    var i := 0;
    while i < |id|
      invariant 0 <= i <= |id| && 0 <= res < WORD32
      invariant |id| <= MAX_MSG ==> res <= i * (HASH_SIZE - 1) && res % HASH_SIZE == HashValue(id[..i])
    {
      res := AddChar(id, i, res);
      i := i + 1;
    }
    assert id[..i] == id;
    res := res % HASH_SIZE;
  }

  /** The hash is the plain polynomial exactly for ids of 7-bit characters. */
  lemma PlainExactlyFor7Bit(id: seq<Char8>)
    requires |id| <= MAX_MSG
    ensures HashValue(id) == Polynomial(id) % HASH_SIZE <==> forall i :: 0 <= i < |id| ==> id[i] >= 0
  {
    NegativesCount(id);
    if HashValue(id) == Polynomial(id) % HASH_SIZE {
      ResidueVanishes(Polynomial(id), Negatives(id));
    }
  }

  /** The one-character id of byte 255 hashes to 6498, where the polynomial gives 10000. */
  lemma NegativeCharDiffers()
    ensures HashValue([-1]) == 6498 && Polynomial([-1]) % HASH_SIZE == 10000
  {
    var id: seq<Char8> := [-1];
    assert id[..0] == [] && Pow71(0) == 1;
    assert Polynomial(id) == -1 && Negatives(id) == 1;
  }

  /** 6499 has the inverse 3030, so fewer than `HASH_SIZE` copies of it do not cancel. */
  lemma ResidueVanishes(p: int, n: int)
    requires (p + n * WORD64_RESIDUE) % HASH_SIZE == p % HASH_SIZE && 0 <= n < HASH_SIZE
    ensures n == 0
  {
  }

  lemma {:induction false} NegativesCount(id: seq<Char8>)
    ensures Negatives(id) <= |id|
    ensures Negatives(id) == 0 <==> forall i :: 0 <= i < |id| ==> id[i] >= 0
  {
    if id != [] {
      var n := |id| - 1;
      NegativesCount(id[..n]);
      assert forall i :: 0 <= i < n ==> id[..n][i] == id[i];
    }
  }
}
