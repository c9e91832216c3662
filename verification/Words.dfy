/** Bit operations on machine words, written on naturals. */
module Words {

  const WORD_SIZE: nat := 0x1_0000_0000_0000_0000

  type Word = x: nat | x < WORD_SIZE

  function Pow2(k: nat): (r: nat)
    ensures r >= 1
  {
    if k == 0 then 1 else 2 * Pow2(k - 1)
  }

  function Xor(a: nat, b: nat): nat
    decreases a + b
  {
    if a == 0 && b == 0 then 0 else 2 * Xor(a / 2, b / 2) + (a + b) % 2
  }

  function And(a: nat, b: nat): nat
    decreases a + b
  {
    if a == 0 || b == 0 then 0 else 2 * And(a / 2, b / 2) + (a % 2) * (b % 2)
  }

  function Or(a: nat, b: nat): nat
    decreases a + b
  {
    if a == 0 && b == 0 then 0 else 2 * Or(a / 2, b / 2) + (if a % 2 == 1 || b % 2 == 1 then 1 else 0)
  }

  lemma Parity(a: nat, b: nat)
    ensures ((a + b) % 2 + b) % 2 == a % 2
    ensures a == 2 * (a / 2) + a % 2
  {
  }

  lemma Halves(h: nat, low: nat, b: nat)
    requires low < 2
    ensures (2 * h + low) / 2 == h && (2 * h + low + b) % 2 == (low + b) % 2
  {
  }

  lemma XorUnfold(a: nat, b: nat)
    ensures Xor(a, b) == 2 * Xor(a / 2, b / 2) + (a + b) % 2
  {
  }

  lemma XorOf(x: nat, b: nat, h: nat, low: nat)
    requires x == 2 * h + low && low < 2
    ensures Xor(x, b) == 2 * Xor(h, b / 2) + (low + b) % 2
  {
    Halves(h, low, b);
    XorUnfold(x, b);
  }

  /** XOR with the same operand twice is the identity. */
  lemma {:induction false} XorCancels(a: nat, b: nat)
    ensures Xor(Xor(a, b), b) == a
    decreases a + b
  {
    if a != 0 || b != 0 {
      XorCancels(a / 2, b / 2);
      XorUnfold(a, b);
      var h := Xor(a / 2, b / 2);
      XorOf(2 * h + (a + b) % 2, b, h, (a + b) % 2);
      Parity(a, b);
    }
  }

  lemma {:induction false} XorBelow(a: nat, b: nat, k: nat)
    requires a < Pow2(k) && b < Pow2(k)
    ensures Xor(a, b) < Pow2(k)
  {
    if k != 0 {
      XorBelow(a / 2, b / 2, k - 1);
    }
  }

  lemma {:induction false} XorDiffers(a: nat, b: nat)
    requires b != 0
    ensures Xor(a, b) != a
    decreases a + b
  {
    if b % 2 == 0 {
      XorDiffers(a / 2, b / 2);
    }
  }

  /** Masking with 2^k - 1 is the remainder modulo 2^k. */
  lemma {:induction false} AndMask(a: nat, k: nat)
    ensures And(a, Pow2(k) - 1) == a % Pow2(k)
  {
    if k == 0 {
    } else if a == 0 {
      ZeroRemainder(Pow2(k));
    } else {
      AndMask(a / 2, k - 1);
      var p := Pow2(k - 1);
      assert (2 * p - 1) / 2 == p - 1 && (2 * p - 1) % 2 == 1;
      HalfRemainder(a, p);
    }
  }

  lemma ZeroRemainder(n: nat)
    requires n >= 1
    ensures 0 % n == 0
  {
  }

  lemma HalfRemainder(a: nat, p: nat)
    requires p >= 1
    ensures a % (2 * p) == 2 * ((a / 2) % p) + a % 2
  {
    var q, r := (a / 2) / p, (a / 2) % p;
    assert a / 2 == p * q + r;
    assert a == (2 * p) * q + (2 * r + a % 2);
    RemainderUnique(a, 2 * p, q, 2 * r + a % 2);
  }

  lemma AtLeastOnce(n: int, k: int)
    requires n >= 1
    ensures k >= 1 ==> n * k >= n
    ensures k <= -1 ==> n * k <= -n
  {
  }

  lemma RemainderUnique(a: nat, n: nat, q: nat, r: nat)
    requires n >= 1 && a == n * q + r && r < n
    ensures a % n == r && a / n == q
  {
    var d, m := a / n, a % n;
    AtLeastOnce(n, d - q);
    assert n * (d - q) == n * d - n * q == r - m;
  }

  /** Or-ing values with disjoint bits is addition. */
  lemma {:induction false} OrDisjoint(a: nat, b: nat, k: nat)
    requires a % Pow2(k) == 0 && b < Pow2(k)
    ensures Or(a, b) == a + b
    decreases k
  {
    if a == 0 && b == 0 {
    } else if k == 0 {
      OrZero(a);
    } else {
      var p := Pow2(k - 1);
      HalfRemainder(a, p);
      OrDisjoint(a / 2, b / 2, k - 1);
    }
  }

  lemma {:induction false} OrZero(a: nat)
    ensures Or(a, 0) == a
  {
    if a != 0 {
      OrZero(a / 2);
    }
  }
}
