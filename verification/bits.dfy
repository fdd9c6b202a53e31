/**
 * Machine words of an arbitrary bit width w, as the integers 0 .. 2^w - 1.
 *
 * LLVM integer instructions wrap modulo 2^w at the width of their operands.
 * The bitwise operations are defined bit by bit (lowest bit first), so that
 * every identity below is proved for every width at once rather than for
 * one fixed bit-vector type.
 */
module Bits {

  /** 2^w */
  function Pow2(w: nat): (p: nat)
    ensures p >= 1
  {
    if w == 0 then 1 else 2 * Pow2(w - 1)
  }

  /** A value representable at width w. */
  predicate IsWord(x: int, w: nat) {
    0 <= x < Pow2(w)
  }

  /** Truncation to width w (ConstantInt::get / wrapping arithmetic): the
      remainder modulo 2^w, as WrapIsMod states.  The remainder sits three
      calls of Truncate deep, so that a proof about wrapped values works
      from the lemmas of this module (WrapSplit, WrapShift, WrapAdd, ...)
      instead of from nonlinear remainder arithmetic on every Wrap it sees. */
  function Wrap(x: int, w: nat): (r: nat)
    ensures IsWord(r, w)
  {
    Truncate(x, w, 3)
  }

  /** x mod 2^w, after k steps that change nothing.  This models nothing
      of the source: it is a device for the solver, which keeps the
      remainder out of sight until WrapIsMod is called. */
  function Truncate(x: int, w: nat, k: nat): (r: nat)
    ensures IsWord(r, w)
  {
    if k == 0 then x % Pow2(w) else Truncate(x, w, k - 1)
  }

  lemma WrapIsMod(x: int, w: nat)
    ensures Wrap(x, w) == x % Pow2(w)
  {
    assert Truncate(x, w, 0) == x % Pow2(w);
    assert Truncate(x, w, 1) == Truncate(x, w, 0);
    assert Truncate(x, w, 2) == Truncate(x, w, 1);
  }

  // ---------------------------------------------------------------------
  // Arithmetic at width w (LLVM add, sub, mul, and the negation 0 - x)

  function Add(a: int, b: int, w: nat): nat { Wrap(a + b, w) }
  function Sub(a: int, b: int, w: nat): nat { Wrap(a - b, w) }
  function Mul(a: int, b: int, w: nat): nat { Wrap(a * b, w) }

  // ---------------------------------------------------------------------
  // Bitwise operations on the low w bits

  function Bit(a: nat): nat { a % 2 }

  function And(a: nat, b: nat, w: nat): nat
  {
    if w == 0 then 0
    else 2 * And(a / 2, b / 2, w - 1) + (if Bit(a) == 1 && Bit(b) == 1 then 1 else 0)
  }

  function Or(a: nat, b: nat, w: nat): nat
  {
    if w == 0 then 0
    else 2 * Or(a / 2, b / 2, w - 1) + (if Bit(a) == 1 || Bit(b) == 1 then 1 else 0)
  }

  function Xor(a: nat, b: nat, w: nat): nat
  {
    if w == 0 then 0
    else 2 * Xor(a / 2, b / 2, w - 1) + (if Bit(a) != Bit(b) then 1 else 0)
  }

  function Not(a: nat, w: nat): nat
  {
    if w == 0 then 0 else 2 * Not(a / 2, w - 1) + (1 - Bit(a))
  }

  // ---------------------------------------------------------------------
  // Euclidean division facts used by the proofs

  lemma ModUnique(a: int, n: int, q: int, r: int)
    requires 0 <= r < n
    requires a == n * q + r
    ensures a % n == r && a / n == q
  {
    var q', r' := a / n, a % n;
    assert a == n * q' + r';
    if q' < q {
      assert n * q - n * q' == n * (q - q');
      MulAtLeast(n, q - q');
    } else if q' > q {
      assert n * q' - n * q == n * (q' - q);
      MulAtLeast(n, q' - q);
    }
  }

  lemma MulAtLeast(n: int, d: int)
    requires n > 0 && d >= 1
    ensures n * d >= n
  {
  }

  lemma ModOfWord(a: int, w: nat)
    requires IsWord(a, w)
    ensures Wrap(a, w) == a
  {
    ModUnique(a, Pow2(w), 0, a);
    WrapIsMod(a, w);
  }

  /** Adding a multiple of the modulus does not change the remainder. */
  lemma ModShift(x: int, q: int, n: int)
    requires n > 0
    ensures (x + n * q) % n == x % n
  {
    assert x == n * (x / n) + x % n;
    assert x + n * q == n * (x / n + q) + x % n;
    ModUnique(x + n * q, n, x / n + q, x % n);
  }

  /** A number is its truncation plus a multiple of 2^w. */
  lemma WrapSplit(x: int, w: nat)
    ensures x == Pow2(w) * (x / Pow2(w)) + Wrap(x, w)
  {
    WrapIsMod(x, w);
    DivMod(x, Pow2(w));
  }

  lemma DivMod(x: int, n: int)
    requires n > 0
    ensures x == n * (x / n) + x % n
  {
  }

  /** Adding a multiple of 2^w does not change the truncation. */
  lemma WrapShift(x: int, y: int, q: int, w: nat)
    requires y == x + Pow2(w) * q
    ensures Wrap(y, w) == Wrap(x, w)
  {
    WrapIsMod(x, w);
    WrapIsMod(y, w);
    ModShift(x, q, Pow2(w));
  }

  lemma WrapAdd(a: int, b: int, w: nat)
    ensures Wrap(Wrap(a, w) + b, w) == Wrap(a + b, w)
    ensures Wrap(a + Wrap(b, w), w) == Wrap(a + b, w)
  {
    var P := Pow2(w);
    WrapSplit(a, w);
    WrapShift(Wrap(a, w) + b, a + b, a / P, w);
    WrapSplit(b, w);
    WrapShift(a + Wrap(b, w), a + b, b / P, w);
  }

  lemma WrapSub(a: int, b: int, w: nat)
    ensures Wrap(Wrap(a, w) - b, w) == Wrap(a - b, w)
    ensures Wrap(a - Wrap(b, w), w) == Wrap(a - b, w)
  {
    var P := Pow2(w);
    WrapSplit(a, w);
    WrapShift(Wrap(a, w) - b, a - b, a / P, w);
    WrapSplit(b, w);
    WrapShift(a - b, a - Wrap(b, w), b / P, w);
  }

  /** Reducing both factors first does not change the remainder. */
  lemma ModMul(a: int, b: int, n: int)
    requires n > 0
    ensures ((a % n) * (b % n)) % n == (a * b) % n
  {
    var qa, ra := a / n, a % n;
    var qb, rb := b / n, b % n;
    ProductSplit(a, b, n, qa, ra, qb, rb);
    ModShift(ra * rb, qa * n * qb + qa * rb + ra * qb, n);
  }

  /** With a = n * qa + ra and b = n * qb + rb, the product is ra * rb plus a
      multiple of n. */
  lemma ProductSplit(a: int, b: int, n: int, qa: int, ra: int, qb: int, rb: int)
    requires a == n * qa + ra && b == n * qb + rb
    ensures a * b == ra * rb + n * (qa * n * qb + qa * rb + ra * qb)
  {
    calc {
      a * b;
      (n * qa + ra) * (n * qb + rb);
      ra * rb + n * (qa * n * qb + qa * rb + ra * qb);
    }
  }

  lemma WrapMul(a: int, b: int, w: nat)
    ensures Wrap(Wrap(a, w) * Wrap(b, w), w) == Wrap(a * b, w)
  {
    WrapIsMod(a, w);
    WrapIsMod(b, w);
    WrapIsMod(a * b, w);
    WrapIsMod(Wrap(a, w) * Wrap(b, w), w);
    ModMul(a, b, Pow2(w));
  }

  /** The low w+1 bits of a are its lowest bit and the low w bits of a / 2. */
  lemma WrapHalf(a: nat, w: nat)
    ensures Wrap(a, w + 1) == 2 * Wrap(a / 2, w) + Bit(a)
  {
    WrapIsMod(a, w + 1);
    WrapIsMod(a / 2, w);
    var n := Pow2(w);
    var h := a / 2;
    var q, r := h / n, h % n;
    assert Pow2(w + 1) == 2 * n;
    assert a == 2 * h + a % 2;
    assert h == n * q + r;
    assert 2 * (n * q) == (2 * n) * q;
    ModUnique(a, 2 * n, q, 2 * r + a % 2);
  }

  lemma Halves(x: nat, bit: nat)
    requires bit < 2
    ensures (2 * x + bit) / 2 == x && Bit(2 * x + bit) == bit
  {
  }

  // ---------------------------------------------------------------------
  // Each bitwise result is a word; its lowest bit and upper part unfold

  lemma {:induction false} AndWord(a: nat, b: nat, w: nat)
    ensures IsWord(And(a, b, w), w)
  {
    if w > 0 { AndWord(a / 2, b / 2, w - 1); }
  }

  lemma {:induction false} OrWord(a: nat, b: nat, w: nat)
    ensures IsWord(Or(a, b, w), w)
  {
    if w > 0 { OrWord(a / 2, b / 2, w - 1); }
  }

  lemma {:induction false} XorWord(a: nat, b: nat, w: nat)
    ensures IsWord(Xor(a, b, w), w)
  {
    if w > 0 { XorWord(a / 2, b / 2, w - 1); }
  }

  lemma {:induction false} NotWord(a: nat, w: nat)
    ensures IsWord(Not(a, w), w)
  {
    if w > 0 { NotWord(a / 2, w - 1); }
  }

  lemma AndStep(a: nat, b: nat, w: nat)
    requires w > 0
    ensures And(a, b, w) / 2 == And(a / 2, b / 2, w - 1)
    ensures Bit(And(a, b, w)) == (if Bit(a) == 1 && Bit(b) == 1 then 1 else 0)
  {
    Halves(And(a / 2, b / 2, w - 1), if Bit(a) == 1 && Bit(b) == 1 then 1 else 0);
  }

  lemma OrStep(a: nat, b: nat, w: nat)
    requires w > 0
    ensures Or(a, b, w) / 2 == Or(a / 2, b / 2, w - 1)
    ensures Bit(Or(a, b, w)) == (if Bit(a) == 1 || Bit(b) == 1 then 1 else 0)
  {
    Halves(Or(a / 2, b / 2, w - 1), if Bit(a) == 1 || Bit(b) == 1 then 1 else 0);
  }

  lemma XorStep(a: nat, b: nat, w: nat)
    requires w > 0
    ensures Xor(a, b, w) / 2 == Xor(a / 2, b / 2, w - 1)
    ensures Bit(Xor(a, b, w)) == (if Bit(a) != Bit(b) then 1 else 0)
  {
    Halves(Xor(a / 2, b / 2, w - 1), if Bit(a) != Bit(b) then 1 else 0);
  }

  lemma NotStep(a: nat, w: nat)
    requires w > 0
    ensures Not(a, w) / 2 == Not(a / 2, w - 1)
    ensures Bit(Not(a, w)) == 1 - Bit(a)
  {
    Halves(Not(a / 2, w - 1), 1 - Bit(a));
  }

  // ---------------------------------------------------------------------
  // How the bitwise operations relate to arithmetic

  /** The half-adder identity: a + b == (a ^ b) + 2 * (a & b) on the low w bits. */
  lemma {:induction false} XorPlusTwiceAnd(a: nat, b: nat, w: nat)
    ensures Xor(a, b, w) + 2 * And(a, b, w) == Wrap(a, w) + Wrap(b, w)
  {
    if w == 0 {
    } else {
      XorPlusTwiceAnd(a / 2, b / 2, w - 1);
      WrapHalf(a, w - 1);
      WrapHalf(b, w - 1);
    }
  }

  /** a + b == (a | b) + (a & b) on the low w bits. */
  lemma {:induction false} OrPlusAnd(a: nat, b: nat, w: nat)
    ensures Or(a, b, w) + And(a, b, w) == Wrap(a, w) + Wrap(b, w)
  {
    if w == 0 {
    } else {
      OrPlusAnd(a / 2, b / 2, w - 1);
      WrapHalf(a, w - 1);
      WrapHalf(b, w - 1);
    }
  }

  /** ~a == 2^w - 1 - a on the low w bits. */
  lemma {:induction false} NotIsComplement(a: nat, w: nat)
    ensures Not(a, w) + Wrap(a, w) == Pow2(w) - 1
  {
    if w == 0 {
    } else {
      NotIsComplement(a / 2, w - 1);
      WrapHalf(a, w - 1);
    }
  }

  /** The bits of b split into those not in c and those in c. */
  lemma {:induction false} AndNotPlusAnd(b: nat, c: nat, w: nat)
    ensures And(b, Not(c, w), w) + And(b, c, w) == Wrap(b, w)
  {
    if w == 0 {
    } else {
      NotStep(c, w);
      AndNotPlusAnd(b / 2, c / 2, w - 1);
      WrapHalf(b, w - 1);
    }
  }

  lemma {:induction false} AndComm(a: nat, b: nat, w: nat)
    ensures And(a, b, w) == And(b, a, w)
  {
    if w > 0 { AndComm(a / 2, b / 2, w - 1); }
  }

  /** Xor with the all-ones word complements. */
  lemma {:induction false} XorAllOnes(a: nat, w: nat)
    ensures Xor(a, Pow2(w) - 1, w) == Not(a, w)
  {
    if w > 0 {
      var m := Pow2(w - 1) - 1;
      assert Pow2(w) - 1 == 2 * m + 1;
      Halves(m, 1);
      XorAllOnes(a / 2, w - 1);
    }
  }
}
