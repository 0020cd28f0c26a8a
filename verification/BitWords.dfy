/** Bitwise operators on unsigned words, one bit at a time. */
module BitWords {

  predicate Bit(w: nat, j: nat)
  {
    if j == 0 then w % 2 == 1 else Bit(w / 2, j - 1)
  }

  function Pow2(j: nat): (p: nat)
    ensures p > 0
  {
    if j == 0 then 1 else 2 * Pow2(j - 1)
  }

  function And(a: nat, b: nat): nat
  {
    if a == 0 || b == 0 then 0
    else 2 * And(a / 2, b / 2) + (if a % 2 == 1 && b % 2 == 1 then 1 else 0)
  }

  function Or(a: nat, b: nat): nat
  {
    if a == 0 then b else if b == 0 then a
    else 2 * Or(a / 2, b / 2) + (if a % 2 == 1 || b % 2 == 1 then 1 else 0)
  }

  function Xor(a: nat, b: nat): nat
  {
    if a == 0 then b else if b == 0 then a
    else 2 * Xor(a / 2, b / 2) + (if a % 2 == b % 2 then 0 else 1)
  }

  lemma {:induction false} ZeroBits(j: nat)
    ensures !Bit(0, j)
  {
    if j > 0 {
      ZeroBits(j - 1);
    }
  }

  lemma {:induction false} BitOr(a: nat, b: nat, j: nat)
    ensures Bit(Or(a, b), j) <==> Bit(a, j) || Bit(b, j)
    decreases j
  {
    if a == 0 || b == 0 {
      ZeroBits(j);
    } else if j > 0 {
      BitOr(a / 2, b / 2, j - 1);
    }
  }

  lemma {:induction false} BitXor(a: nat, b: nat, j: nat)
    ensures Bit(Xor(a, b), j) <==> Bit(a, j) != Bit(b, j)
    decreases j
  {
    if a == 0 || b == 0 {
      ZeroBits(j);
    } else if j > 0 {
      BitXor(a / 2, b / 2, j - 1);
    }
  }

  /** Two numbers differ in some bit. */
  lemma {:induction false} DifferingBit(a: nat, b: nat) returns (j: nat)
    requires a != b
    ensures Bit(a, j) != Bit(b, j)
    decreases a + b
  {
    if a % 2 != b % 2 {
      j := 0;
    } else {
      j := DifferingBit(a / 2, b / 2);
      j := j + 1;
    }
  }

  /** Mixing with one word keeps words apart. */
  lemma XorKeepsApart(a: nat, b: nat, c: nat)
    requires a != b
    ensures Xor(a, c) != Xor(b, c)
  {
    var j := DifferingBit(a, b);
    BitXor(a, c, j);
    BitXor(b, c, j);
  }

  lemma {:induction false} BitPow2(i: nat, j: nat)
    ensures Bit(Pow2(i), j) <==> i == j
  {
    if i == 0 && j > 0 {
      ZeroBits(j - 1);
    } else if i > 0 && j > 0 {
      BitPow2(i - 1, j - 1);
    }
  }

  /** The mask test passes exactly when every bit of k is in t. */
  lemma {:induction false} PassesBits(t: nat, k: nat, j: nat)
    requires And(t, k) == k && Bit(k, j)
    ensures Bit(t, j)
    decreases j
  {
    if k == 0 || t == 0 {
      ZeroBits(j);
    } else if j > 0 {
      PassesBits(t / 2, k / 2, j - 1);
    }
  }

  lemma {:induction false} FailsBit(t: nat, k: nat) returns (j: nat)
    requires And(t, k) != k
    ensures Bit(k, j) && !Bit(t, j) && Pow2(j) <= k
    decreases k
  {
    if k % 2 == 1 && t % 2 == 0 {
      j := 0;
    } else {
      j := FailsBit(t / 2, k / 2);
      j := j + 1;
    }
  }

  lemma {:induction false} OrBound(a: nat, b: nat, n: nat)
    requires a < Pow2(n) && b < Pow2(n)
    ensures Or(a, b) < Pow2(n) && Xor(a, b) < Pow2(n)
    decreases n
  {
    if a != 0 && b != 0 {
      OrBound(a / 2, b / 2, n - 1);
    }
  }

  lemma {:induction false} PowGrows(i: nat, n: nat)
    requires i < n
    ensures Pow2(i) < Pow2(n)
  {
    if i < n - 1 {
      PowGrows(i, n - 1);
    }
  }
}
