/** The bloom index's own Park-Miller generator, in C's 32-bit signed arithmetic. */
module BloomRandom {

  const M := 0x7fffffff
  const TWO32 := 0x1_0000_0000

  newtype int32 = x: int | -0x8000_0000 <= x < 0x8000_0000

  /** C's division truncates toward zero; the remainder takes the dividend's sign. */
  function CDiv(a: int, b: int): int
    requires b > 0
  {
    if a >= 0 then a / b else -((-a) / b)
  }

  function CMod(a: int, b: int): int
    requires b > 0
  {
    a - b * CDiv(a, b)
  }

  lemma Quotient(a: nat, b: int)
    requires b > 0
    ensures a / b >= 0 && b * (a / b) <= a < b * (a / b) + b
  {
    assert a == b * (a / b) + a % b;
  }

  lemma TruncatedDivision(a: int, b: int)
    requires b > 0
    ensures var q, r := CDiv(a, b), CMod(a, b);
      a == b * q + r && -b < r < b && (a >= 0 ==> q >= 0 && r >= 0) && (a <= 0 ==> q <= 0 && r <= 0)
  {
    if a >= 0 {
      Quotient(a, b);
    } else {
      Quotient(-a, b);
      var k := (-a) / b;
      assert b * -k == -(b * k);
    }
  }

  /** The generator's file-level state. */
  class Generator {
    var next: int32

    /** mySrand: the unsigned seed is stored in a signed word first. */
    method Srand(seed: int)
      requires 0 <= seed < TWO32
      modifies this
      ensures next as int == Seeded(seed)
    {
      next := (if seed < 0x8000_0000 then seed else seed - TWO32) as int32;
      next := CMod(next as int, 0x7ffffffe) as int32 + 1;
    }

    /** myRand: every intermediate stays inside int32. */
    method Rand() returns (r: int32)
      requires -M < next as int < M
      modifies this
      ensures next as int == Step(old(next) as int) && r as int == next as int - 1
    {
      Split(next as int);
      var hi := CDiv(next as int, 127773) as int32;
      var lo := CMod(next as int, 127773) as int32;
      var x := 16807 * lo - 2836 * hi;
      if x < 0 {
        x := x + 0x7fffffff;
      }
      next := x;
      r := x - 1;
    }
  }

  /** What mySrand leaves in next. */
  function Seeded(seed: int): int
    requires 0 <= seed < TWO32
  {
    CMod(if seed < 0x8000_0000 then seed else seed - TWO32, 0x7ffffffe) + 1
  }

  /** The Lehmer step that the split computes. */
  function Step(x: int): (y: int)
    ensures 0 <= y < M
  {
    (16807 * x) % M
  }

  /** Schrage's split: no step leaves int32, and the result is the product mod M. */
  lemma Split(x: int)
    requires -M < x < M
    ensures var hi, lo := CDiv(x, 127773), CMod(x, 127773);
      var d := 16807 * lo - 2836 * hi;
      && -0x8000_0000 <= 16807 * lo < 0x8000_0000 && -0x8000_0000 <= 2836 * hi < 0x8000_0000
      && -M < d < M && Step(x) == if d < 0 then d + M else d
  {
    var hi, lo := CDiv(x, 127773), CMod(x, 127773);
    var d := 16807 * lo - 2836 * hi;
    assert 16807 * x == M * hi + d;
    if d < 0 {
      Remainder(16807 * x, hi - 1, d + M);
    } else {
      Remainder(16807 * x, hi, d);
    }
  }

  lemma Remainder(a: int, q: int, r: int)
    requires a == M * q + r && 0 <= r < M
    ensures a % M == r
  {
  }

  /** 16807 is a unit mod M, so a step never falls to zero. */
  lemma NeverZero(x: int)
    requires -M < x < M && x != 0
    ensures Step(x) != 0
  {
    var q := (16807 * x) / M;
    assert 16807 * x == M * q + Step(x);
    assert x == M * (1407677000 * q - 11017 * x) + 1407677000 * Step(x);
  }

  // --------------------------------------------------------- whole sequences

  /** The state after n calls of myRand. */
  function After(start: int, n: nat): int
  {
    if n == 0 then start else Step(After(start, n - 1))
  }

  /** The value the n-th call returns. */
  function Output(seed: int, n: nat): int
    requires 0 <= seed < TWO32 && n > 0
  {
    After(Seeded(seed), n) - 1
  }

  lemma FirstOutput(seed: int)
    requires 0 <= seed < TWO32
    ensures Output(seed, 1) == Step(Seeded(seed)) - 1
  {
    assert After(Seeded(seed), 0) == Seeded(seed);
  }

  function Pow(n: nat): nat { if n == 0 then 1 else 16807 * Pow(n - 1) }

  lemma StepMod(a: int, b: int)
    requires a == b % M
    ensures Step(a) == (16807 * b) % M
  {
    var q, k := b / M, (16807 * a) / M;
    assert 16807 * b == M * (16807 * q + k) + Step(a);
    Remainder(16807 * b, 16807 * q + k, Step(a));
  }

  /** n steps multiply by 7^5 to the n-th power. */
  lemma {:induction false} AfterIsPower(start: int, n: nat)
    ensures After(start, n) % M == (Pow(n) * start) % M
  {
    if n > 0 {
      AfterIsPower(start, n - 1);
      var a, b := After(start, n - 1), Pow(n - 1) * start;
      StepMod(b % M, b);
      StepMod(a % M, a);
      assert 16807 * b == Pow(n) * start;
    }
  }

  /** After at least one step the state is the power's residue itself. */
  lemma AfterIsResidue(start: int, n: nat)
    requires n > 0
    ensures After(start, n) == (Pow(n) * start) % M
  {
    AfterIsPower(start, n);
  }

  /** The state that a seed leaves: one more than the remainder of the seed read as a
      signed number, whose sign the remainder keeps. */
  lemma SeededIs(seed: int)
    requires 0 <= seed < TWO32
    ensures Seeded(seed) == if seed < 0x8000_0000 then seed % 0x7fff_fffe + 1 else 1 - (TWO32 - seed) % 0x7fff_fffe
  {
  }

  predicate BadSeed(seed: int) { seed == 0xffff_ffff || seed == 0x8000_0001 }

  lemma SeededRange(seed: int)
    requires 0 <= seed < TWO32
    ensures -M < Seeded(seed) < M && (Seeded(seed) == 0 <==> BadSeed(seed))
  {
  }

  lemma {:induction false} StaysPositive(start: int, n: nat)
    requires -M < start < M && start != 0 && n > 0
    ensures 0 < After(start, n) < M
  {
    if n > 1 {
      StaysPositive(start, n - 1);
    }
    NeverZero(After(start, n - 1));
  }

  lemma {:induction false} StaysZero(n: nat)
    ensures After(0, n) == 0
  {
    if n > 0 {
      StaysZero(n - 1);
    }
  }

  /** Every output lies in the documented range exactly for the other seeds; for the
      two bad ones no output ever does. */
  lemma OutputsInRangeIff(seed: int, n: nat)
    requires 0 <= seed < TWO32 && n > 0
    ensures 0 <= Output(seed, n) <= 0x7ffffffd <==> !BadSeed(seed)
    ensures BadSeed(seed) ==> Output(seed, n) == -1
  {
    SeededRange(seed);
    if BadSeed(seed) {
      StaysZero(n);
    } else {
      StaysPositive(Seeded(seed), n);
    }
  }
}
