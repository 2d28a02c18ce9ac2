/** packKeyBucket: the 64-bit id under which the accumulator files a (key, bucket) cell. */
module Packing {
  import opened Bits

  const HALF_WORD: nat := 0x8000_0000_0000_0000
  const GOLDEN: nat := 0x9e37_79b9_7f4a_7c15
  // The inverse of GOLDEN modulo WORD.
  const GOLDEN_INVERSE: nat := 0xf1de_83e1_9937_733d

  type uint64 = x: nat | x < WORD

  function ShiftedBucket(bucket: uint64): uint64 {
    (2 * bucket) % WORD
  }

  function MixedKey(key: uint64): uint64 {
    (key * GOLDEN) % WORD
  }

  function Pack(key: uint64, bucket: uint64): uint64 {
    PowWord();
    XorBound(ShiftedBucket(bucket), MixedKey(key), 64);
    BitXor(ShiftedBucket(bucket), MixedKey(key))
  }

  /** The id bit by bit: the bucket shifted left by one, exclusive or the key times an odd constant, in 64
      bits. */
  lemma PackBits(key: uint64, bucket: uint64, i: nat)
    ensures Bit(Pack(key, bucket), i) <==>
      Bit((2 * bucket) % 0x1_0000_0000_0000_0000, i)
        != Bit((key * 0x9e37_79b9_7f4a_7c15) % 0x1_0000_0000_0000_0000, i)
  {
    hide BitXor, Bit;
    BitOfXor(ShiftedBucket(bucket), MixedKey(key), i);
  }

  // An odd multiplier can be undone.
  lemma MixedKeyUndone(key: uint64)
    ensures (MixedKey(key) * GOLDEN_INVERSE) % WORD == key
  {
    var q := (key * GOLDEN) / WORD;
    var c := (GOLDEN * GOLDEN_INVERSE - 1) / WORD;
    assert GOLDEN * GOLDEN_INVERSE == 1 + c * WORD;
    assert key * GOLDEN == MixedKey(key) + q * WORD;
    assert MixedKey(key) * GOLDEN_INVERSE == key + (key * c - q * GOLDEN_INVERSE) * WORD;
    RemainderUnique(MixedKey(key) * GOLDEN_INVERSE, WORD, key * c - q * GOLDEN_INVERSE, key);
  }

  /** Distinct keys never collide within a bucket. */
  lemma KeysSeparate(k: uint64, k': uint64, bucket: uint64)
    ensures Pack(k, bucket) == Pack(k', bucket) <==> k == k'
  {
    hide BitXor, MixedKey;
    if Pack(k, bucket) == Pack(k', bucket) {
      XorCancels(ShiftedBucket(bucket), MixedKey(k), MixedKey(k'));
      MixedKeyUndone(k);
      MixedKeyUndone(k');
    }
  }

  lemma XorCommutes(a: nat, b: nat)
    ensures BitXor(a, b) == BitXor(b, a)
    decreases a + b
  {
    if a > 0 && b > 0 {
      XorCommutes(a / 2, b / 2);
    }
  }

  lemma ShiftLosesTopBit(b: uint64)
    ensures ShiftedBucket(b) == 2 * (b % HALF_WORD)
  {
  }

  /** Two buckets of one key collide exactly when they agree in their low 63 bits. */
  lemma BucketsSeparate(key: uint64, b: uint64, b': uint64)
    ensures Pack(key, b) == Pack(key, b') <==> b % HALF_WORD == b' % HALF_WORD
  {
    var (x, x', y) := (ShiftedBucket(b), ShiftedBucket(b'), MixedKey(key));
    ShiftLosesTopBit(b);
    ShiftLosesTopBit(b');
    XorCommutes(x, y);
    XorCommutes(x', y);
    if BitXor(y, x) == BitXor(y, x') {
      XorCancels(y, x, x');
    }
  }

  lemma {:induction false} XorSelf(a: nat, b: nat)
    ensures BitXor(a, b) == 0 <==> a == b
    decreases a + b
  {
    if a > 0 && b > 0 {
      XorSelf(a / 2, b / 2);
    }
  }

  lemma Even(half: int, x: int, y: int)
    requires x == y + 2 * half
    ensures x % 2 == y % 2
  {
  }

  lemma MixedKeyParity(key: uint64)
    ensures MixedKey(key) % 2 == key % 2
  {
    var q := (key * GOLDEN) / WORD;
    assert key * GOLDEN == MixedKey(key) + q * WORD;
    Even(key * (GOLDEN / 2) - q * HALF_WORD, MixedKey(key), key);
  }

  lemma OddKeyOddId(key: uint64)
    requires key % 2 == 1
    ensures Pack(key, 0) % 2 == 1
  {
    MixedKeyParity(key);
    assert ShiftedBucket(0) == 0;
  }

  lemma ZeroIdAt(key: uint64, bucket: uint64)
    ensures Pack(key, bucket) == 0 <==> 2 * (bucket % HALF_WORD) == MixedKey(key)
  {
    ShiftLosesTopBit(bucket);
    XorSelf(ShiftedBucket(bucket), MixedKey(key));
  }

  lemma ZeroBucket(key: uint64) returns (bucket: uint64)
    requires key % 2 == 0
    ensures Pack(key, bucket) == 0
  {
    MixedKeyParity(key);
    bucket := MixedKey(key) / 2;
    ZeroIdAt(key, bucket);
  }

  /** The id 0, which marks a free slot, is taken by some bucket of every even key and of no odd key. */
  lemma ZeroIdIff(key: uint64)
    ensures (exists bucket: uint64 :: Pack(key, bucket) == 0) <==> key % 2 == 0
  {
    hide Pack;
    if key % 2 == 0 {
      var bucket := ZeroBucket(key);
    } else {
      forall bucket: uint64 ensures Pack(key, bucket) != 0 {
        MixedKeyParity(key);
        ZeroIdAt(key, bucket);
      }
    }
  }
}
