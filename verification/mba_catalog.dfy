/**
 * The rewrite catalog of the mixed boolean-arithmetic pass: for each of the
 * opcodes Sub, Add, Xor, Mul and Or, a fixed list of builder expressions
 * over the instruction's two operands, each computing the same word as the
 * instruction at the operands' width.
 *
 * The word-level identities are stated over Bits (every width at once);
 * SubOps .. OrOps are the callback lists as builder expressions, with `~v`
 * built as `v ^ -1` and `-v` as `0 - v`, as IRBuilder does.
 */
module MbaCatalog {
  import Bits
  import opened MbaIr

  // ---------------------------------------------------------------------
  // Word-level identities (x, y are the operand values at width w)

  /** x - y == (x ^ -y) + 2 * (x & -y) */
  lemma SubIdentity(x: nat, y: nat, w: nat)
    requires Bits.IsWord(x, w) && Bits.IsWord(y, w)
    ensures var n := Bits.Sub(0, y, w);
      Bits.Add(Bits.Xor(x, n, w), Bits.Mul(Bits.Wrap(2, w), Bits.And(x, n, w), w), w) == Bits.Sub(x, y, w)
  {
    var n := Bits.Sub(0, y, w);
    var X, A := Bits.Xor(x, n, w), Bits.And(x, n, w);
    Bits.AndWord(x, n, w);
    TwiceWord(A, w);
    assert X + 2 * A == x + n by {
      Bits.ModOfWord(x, w);
      Bits.ModOfWord(n, w);
      Bits.XorPlusTwiceAnd(x, n, w);
    }
    AddWrappedTwice(X, 2 * A, x, y, w);
  }

  /** The arithmetic of SubIdentity: if X + t == x + (-y wrapped), then X
      plus t wrapped is x - y wrapped. */
  lemma AddWrappedTwice(X: int, t: int, x: int, y: int, w: nat)
    requires X + t == x + Bits.Sub(0, y, w)
    ensures Bits.Add(X, Bits.Wrap(t, w), w) == Bits.Sub(x, y, w)
  {
    Bits.WrapAdd(X, t, w);
    Bits.WrapAdd(x, 0 - y, w);
    assert x + (0 - y) == x - y;
  }

  /** Multiplying a word by the constant 2 truncated to the width doubles it modulo 2^w. */
  lemma TwiceWord(a: nat, w: nat)
    requires Bits.IsWord(a, w)
    ensures Bits.Mul(Bits.Wrap(2, w), a, w) == Bits.Wrap(2 * a, w)
  {
    Bits.ModOfWord(a, w);
    Bits.WrapMul(2, a, w);
  }

  /** All ones at width w is what -1 truncates to. */
  lemma AllOnes(w: nat)
    ensures Bits.Wrap(-1, w) == Bits.Pow2(w) - 1
  {
    Bits.WrapIsMod(-1, w);
    Bits.ModUnique(-1, Bits.Pow2(w), -1, Bits.Pow2(w) - 1);
  }

  /** IRBuilder's not, `v ^ -1`, is the complement 2^w - 1 - v. */
  lemma NotValue(v: nat, w: nat)
    requires Bits.IsWord(v, w)
    ensures Bits.Xor(v, Bits.Wrap(-1, w), w) == Bits.Not(v, w) == Bits.Pow2(w) - 1 - v
  {
    AllOnes(w);
    Bits.XorAllOnes(v, w);
    Bits.NotIsComplement(v, w);
    Bits.ModOfWord(v, w);
  }

  /** Truncating -s - 1 gives the complement of s truncated. */
  lemma ComplementOfWrap(s: int, w: nat)
    ensures Bits.Pow2(w) - 1 - Bits.Wrap(-s - 1, w) == Bits.Wrap(s, w)
  {
    var t: int := Bits.Wrap(s, w);
    Bits.WrapSub(-1, s, w);
    Bits.WrapIsMod(-1 - t, w);
    assert -s - 1 == -1 - s;
    Bits.ModUnique(-1 - t, Bits.Pow2(w), -1, Bits.Pow2(w) - 1 - t);
  }

  /** ~(x + (-x + (-x + ~y))) == x + y */
  lemma AddIdentity0(x: nat, y: nat, w: nat)
    requires Bits.IsWord(x, w) && Bits.IsWord(y, w)
    ensures var negx := Bits.Sub(0, x, w);
      var noty := Bits.Xor(y, Bits.Wrap(-1, w), w);
      var inner := Bits.Add(x, Bits.Add(negx, Bits.Add(negx, noty, w), w), w);
      Bits.Xor(inner, Bits.Wrap(-1, w), w) == Bits.Add(x, y, w)
  {
    var negx := Bits.Sub(0, x, w);
    NotValue(y, w);
    var noty := Bits.Pow2(w) - 1 - y;
    var inner := Bits.Add(x, Bits.Add(negx, Bits.Add(negx, noty, w), w), w);
    ComplementChain(x, y, w);
    NotValue(inner, w);
  }

  /** The arithmetic of AddIdentity0, with ~y written as 2^w - 1 - y. */
  lemma ComplementChain(x: int, y: int, w: nat)
    ensures var P := Bits.Pow2(w);
      var negx := Bits.Sub(0, x, w);
      P - 1 - Bits.Add(x, Bits.Add(negx, Bits.Add(negx, P - 1 - y, w), w), w) == Bits.Add(x, y, w)
  {
    var P := Bits.Pow2(w);
    var t := (0 - x) + (P - 1 - y);
    AddWrapped(0 - x, P - 1 - y, w);
    AddBothWrapped(0 - x, t, w);
    var s := (0 - x) + t;
    AddWrapped(s, x, w);
    assert x + s == -(x + y) - 1 + P;
    WrapPlusModulus(-(x + y) - 1, w);
    ComplementOfWrap(x + y, w);
  }

  lemma AddWrapped(a: int, b: int, w: nat)
    ensures Bits.Add(Bits.Wrap(a, w), b, w) == Bits.Wrap(a + b, w)
    ensures Bits.Add(b, Bits.Wrap(a, w), w) == Bits.Wrap(b + a, w)
  {
    Bits.WrapAdd(a, b, w);
    Bits.WrapAdd(b, a, w);
  }

  lemma AddBothWrapped(a: int, b: int, w: nat)
    ensures Bits.Add(Bits.Wrap(a, w), Bits.Wrap(b, w), w) == Bits.Wrap(a + b, w)
  {
    Bits.WrapAdd(a, Bits.Wrap(b, w), w);
    Bits.WrapAdd(a, b, w);
  }

  lemma WrapPlusModulus(s: int, w: nat)
    ensures Bits.Wrap(s + Bits.Pow2(w), w) == Bits.Wrap(s, w)
  {
    Bits.WrapShift(s, s + Bits.Pow2(w), 1, w);
  }

  /** (a + (b + r)) - r == a + b, for every constant r */
  lemma AddIdentity1(x: nat, y: nat, r: int, w: nat)
    requires Bits.IsWord(x, w) && Bits.IsWord(y, w)
    ensures var k := Bits.Wrap(r, w);
      Bits.Sub(Bits.Add(x, Bits.Add(y, k, w), w), k, w) == Bits.Add(x, y, w)
  {
    var k := Bits.Wrap(r, w);
    Bits.WrapAdd(x, y + k, w);
    Bits.WrapSub(x + y + k, k, w);
  }

  /** (~a & b) | (a & ~b) == a ^ b, bit by bit */
  lemma {:induction false} XorIdentity0(a: nat, b: nat, w: nat)
    ensures Bits.Or(Bits.And(Bits.Not(a, w), b, w), Bits.And(a, Bits.Not(b, w), w), w) == Bits.Xor(a, b, w)
  {
    if w > 0 {
      Bits.NotStep(a, w);
      Bits.NotStep(b, w);
      Bits.AndStep(Bits.Not(a, w), b, w);
      Bits.AndStep(a, Bits.Not(b, w), w);
      XorIdentity0(a / 2, b / 2, w - 1);
    }
  }

  /** (a | b) & ~(a & b) == a ^ b, bit by bit */
  lemma {:induction false} XorIdentity1(a: nat, b: nat, w: nat)
    ensures Bits.And(Bits.Or(a, b, w), Bits.Not(Bits.And(a, b, w), w), w) == Bits.Xor(a, b, w)
  {
    if w > 0 {
      Bits.OrStep(a, b, w);
      Bits.AndStep(a, b, w);
      Bits.NotStep(Bits.And(a, b, w), w);
      XorIdentity1(a / 2, b / 2, w - 1);
    }
  }

  /** (a + b) - 2 * (a & b) == a ^ b */
  lemma XorIdentity2(x: nat, y: nat, w: nat)
    requires Bits.IsWord(x, w) && Bits.IsWord(y, w)
    ensures var n := Bits.And(x, y, w);
      Bits.Sub(Bits.Add(x, y, w), Bits.Mul(Bits.Wrap(2, w), n, w), w) == Bits.Xor(x, y, w)
  {
    var n, X := Bits.And(x, y, w), Bits.Xor(x, y, w);
    assert X + 2 * n == x + y by {
      Bits.ModOfWord(x, w);
      Bits.ModOfWord(y, w);
      Bits.XorPlusTwiceAnd(x, y, w);
    }
    Bits.AndWord(x, y, w);
    Bits.XorWord(x, y, w);
    TwiceWord(n, w);
    SumMinusWrapped(x, y, 2 * n, X, w);
  }

  lemma SumMinusWrapped(x: int, y: int, k: int, d: int, w: nat)
    requires x + y - k == d && Bits.IsWord(d, w)
    ensures Bits.Sub(Bits.Add(x, y, w), Bits.Wrap(k, w), w) == d
  {
    Bits.WrapSub(Bits.Wrap(x + y, w), k, w);
    Bits.WrapSub(x + y, k, w);
    Bits.ModOfWord(d, w);
  }

  /** ~(~a & ~b) & ~(a & b) == a ^ b, bit by bit */
  lemma {:induction false} XorIdentity3(a: nat, b: nat, w: nat)
    ensures Bits.And(Bits.Not(Bits.And(Bits.Not(a, w), Bits.Not(b, w), w), w), Bits.Not(Bits.And(a, b, w), w), w)
         == Bits.Xor(a, b, w)
  {
    if w > 0 {
      Bits.NotStep(a, w);
      Bits.NotStep(b, w);
      Bits.AndStep(Bits.Not(a, w), Bits.Not(b, w), w);
      Bits.NotStep(Bits.And(Bits.Not(a, w), Bits.Not(b, w), w), w);
      Bits.AndStep(a, b, w);
      Bits.NotStep(Bits.And(a, b, w), w);
      XorIdentity3(a / 2, b / 2, w - 1);
    }
  }

  /** ((b | c) * (b & c)) + ((b & ~c) * (c & ~b)) == b * c */
  lemma MulIdentity(b: nat, c: nat, w: nat)
    requires Bits.IsWord(b, w) && Bits.IsWord(c, w)
    ensures Bits.Add(Bits.Mul(Bits.Or(b, c, w), Bits.And(b, c, w), w),
                     Bits.Mul(Bits.And(b, Bits.Not(c, w), w), Bits.And(c, Bits.Not(b, w), w), w), w)
         == Bits.Mul(b, c, w)
  {
    var x, y, z := Bits.And(b, Bits.Not(c, w), w), Bits.And(c, Bits.Not(b, w), w), Bits.And(b, c, w);
    var o := Bits.Or(b, c, w);
    assert b == x + z && c == y + z && o == x + y + z by {
      Bits.ModOfWord(b, w);
      Bits.ModOfWord(c, w);
      Bits.AndNotPlusAnd(b, c, w);
      Bits.AndNotPlusAnd(c, b, w);
      Bits.AndComm(c, b, w);
      Bits.OrPlusAnd(b, c, w);
    }
    SplitProduct(b, c, o, x, y, z, w);
  }

  /** With b = x + z, c = y + z and o = x + y + z: o * z + x * y == b * c, wrapped. */
  lemma SplitProduct(b: int, c: int, o: int, x: int, y: int, z: int, w: nat)
    requires b == x + z && c == y + z && o == x + y + z
    ensures Bits.Add(Bits.Mul(o, z, w), Bits.Mul(x, y, w), w) == Bits.Mul(b, c, w)
  {
    assert (x + y + z) * z + x * y == (x + z) * (y + z);
    Bits.WrapAdd((x + y + z) * z, Bits.Wrap(x * y, w), w);
    Bits.WrapAdd((x + y + z) * z, x * y, w);
  }

  /** ~(~a & ~b) == a | b, bit by bit */
  lemma {:induction false} OrIdentity0(a: nat, b: nat, w: nat)
    ensures Bits.Not(Bits.And(Bits.Not(a, w), Bits.Not(b, w), w), w) == Bits.Or(a, b, w)
  {
    if w > 0 {
      Bits.NotStep(a, w);
      Bits.NotStep(b, w);
      Bits.AndStep(Bits.Not(a, w), Bits.Not(b, w), w);
      Bits.NotStep(Bits.And(Bits.Not(a, w), Bits.Not(b, w), w), w);
      OrIdentity0(a / 2, b / 2, w - 1);
    }
  }

  /** a ^ (b ^ (a & b)) == a | b, bit by bit */
  lemma {:induction false} OrIdentity1(a: nat, b: nat, w: nat)
    ensures Bits.Xor(a, Bits.Xor(b, Bits.And(a, b, w), w), w) == Bits.Or(a, b, w)
  {
    if w > 0 {
      Bits.AndStep(a, b, w);
      Bits.XorStep(b, Bits.And(a, b, w), w);
      OrIdentity1(a / 2, b / 2, w - 1);
    }
  }

  /** (a + b) - (a & b) == a | b */
  lemma OrIdentity2(x: nat, y: nat, w: nat)
    requires Bits.IsWord(x, w) && Bits.IsWord(y, w)
    ensures Bits.Sub(Bits.Add(x, y, w), Bits.And(x, y, w), w) == Bits.Or(x, y, w)
  {
    var a, o := Bits.And(x, y, w), Bits.Or(x, y, w);
    assert o + a == x + y by {
      Bits.ModOfWord(x, w);
      Bits.ModOfWord(y, w);
      Bits.OrPlusAnd(x, y, w);
    }
    Bits.OrWord(x, y, w);
    SumMinus(x, y, a, o, w);
  }

  /** Arithmetic core shared by the identities of the form (a + b) - k: if
      the exact difference is a word, the wrapped one is that word. */
  lemma SumMinus(x: int, y: int, k: int, d: int, w: nat)
    requires x + y - k == d && Bits.IsWord(d, w)
    ensures Bits.Sub(Bits.Add(x, y, w), k, w) == d
  {
    Bits.WrapSub(x + y, k, w);
    Bits.ModOfWord(d, w);
  }

  // ---------------------------------------------------------------------
  // The callbacks as builder expressions over the operands a and b

  /** IRBuilder::CreateNot: xor with the all-ones constant. */
  function NotE(e: Expr): Expr { Node(Xor, e, Leaf(Imm(-1))) }

  /** IRBuilder::CreateNeg: subtraction from zero. */
  function NegE(e: Expr): Expr { Node(Sub, Leaf(Imm(0)), e) }

  /** The number of callbacks in each list; 0 for the opcodes the pass does not rewrite. */
  function Variants(op: Opcode): nat
  {
    match op
    case Sub => 1
    case Add => 2
    case Xor => 4
    case Mul => 1
    case Or => 3
    case _ => 0
  }

  /** sub_ops */
  function SubOps(k: nat, a: Expr, b: Expr): Expr
    requires k < 1
  {
    Node(Add, Node(Xor, a, NegE(b)), Node(Mul, Leaf(Imm(2)), Node(And, a, NegE(b))))
  }

  /** add_ops; r is the random constant of the second callback. */
  function AddOps(k: nat, a: Expr, b: Expr, r: int): Expr
    requires k < 2
  {
    if k == 0 then NotE(Node(Add, a, Node(Add, NegE(a), Node(Add, NegE(a), NotE(b)))))
    else Node(Sub, Node(Add, a, Node(Add, b, Leaf(Imm(r)))), Leaf(Imm(r)))
  }

  /** xor_ops */
  function XorOps(k: nat, a: Expr, b: Expr): Expr
    requires k < 4
  {
    if k == 0 then Node(Or, Node(And, NotE(a), b), Node(And, a, NotE(b)))
    else if k == 1 then Node(And, Node(Or, a, b), NotE(Node(And, a, b)))
    else if k == 2 then Node(Sub, Node(Add, a, b), Node(Mul, Leaf(Imm(2)), Node(And, a, b)))
    else Node(And, NotE(Node(And, NotE(a), NotE(b))), NotE(Node(And, a, b)))
  }

  /** mul_ops */
  function MulOps(k: nat, a: Expr, b: Expr): Expr
    requires k < 1
  {
    Node(Add, Node(Mul, Node(Or, a, b), Node(And, a, b)), Node(Mul, Node(And, a, NotE(b)), Node(And, b, NotE(a))))
  }

  /** or_ops */
  function OrOps(k: nat, a: Expr, b: Expr): Expr
    requires k < 3
  {
    if k == 0 then NotE(Node(And, NotE(a), NotE(b)))
    else if k == 1 then Node(Xor, a, Node(Xor, b, Node(And, a, b)))
    else Node(Sub, Node(Add, a, b), Node(And, a, b))
  }

  /** Callback k of the list for i's opcode, applied to i's two operands. */
  function Callback(k: nat, i: Inst, r: int): (e: Expr)
    requires k < Variants(i.op)
    ensures e.Node?
  {
    var a, b := Leaf(i.lhs), Leaf(i.rhs);
    match i.op
    case Sub => SubOps(k, a, b)
    case Add => AddOps(k, a, b, r)
    case Xor => XorOps(k, a, b)
    case Mul => MulOps(k, a, b)
    case Or => OrOps(k, a, b)
  }

  lemma NotEval(m: Machine, env: Env, e: Expr, w: nat)
    ensures EvalExpr(m, env, NotE(e), w) == Bits.Not(EvalExpr(m, env, e, w), w)
  {
    NotValue(EvalExpr(m, env, e, w), w);
  }

  lemma NegEval(m: Machine, env: Env, e: Expr, w: nat)
    ensures EvalExpr(m, env, NegE(e), w) == Bits.Sub(0, EvalExpr(m, env, e, w), w)
  {
    Bits.ModOfWord(0, w);
  }

  lemma SubOpsCorrect(m: Machine, env: Env, a: Expr, b: Expr, w: nat)
    ensures EvalExpr(m, env, SubOps(0, a, b), w) == Bits.Sub(EvalExpr(m, env, a, w), EvalExpr(m, env, b, w), w)
  {
    var x, y := EvalExpr(m, env, a, w), EvalExpr(m, env, b, w);
    NegEval(m, env, b, w);
    var n := Bits.Sub(0, y, w);
    assert EvalExpr(m, env, Node(Xor, a, NegE(b)), w) == Bits.Xor(x, n, w);
    assert EvalExpr(m, env, Node(And, a, NegE(b)), w) == Bits.And(x, n, w);
    assert EvalExpr(m, env, Node(Mul, Leaf(Imm(2)), Node(And, a, NegE(b))), w)
        == Bits.Mul(Bits.Wrap(2, w), Bits.And(x, n, w), w);
    SubIdentity(x, y, w);
  }

  lemma AddOps0Correct(m: Machine, env: Env, a: Expr, b: Expr, w: nat)
    ensures EvalExpr(m, env, AddOps(0, a, b, 0), w) == Bits.Add(EvalExpr(m, env, a, w), EvalExpr(m, env, b, w), w)
  {
    var x, y := EvalExpr(m, env, a, w), EvalExpr(m, env, b, w);
    var ones := Bits.Wrap(-1, w);
    assert EvalExpr(m, env, Leaf(Imm(-1)), w) == ones;
    var negx := EvalExpr(m, env, NegE(a), w);
    NegEval(m, env, a, w);
    var noty := EvalExpr(m, env, NotE(b), w);
    assert noty == Bits.Xor(y, ones, w);
    var e1 := Node(Add, NegE(a), NotE(b));
    var e2 := Node(Add, NegE(a), e1);
    var e3 := Node(Add, a, e2);
    var v1 := EvalExpr(m, env, e1, w);
    assert v1 == Bits.Add(negx, noty, w);
    var v2 := EvalExpr(m, env, e2, w);
    assert v2 == Bits.Add(negx, v1, w);
    var v3 := EvalExpr(m, env, e3, w);
    assert v3 == Bits.Add(x, v2, w);
    assert EvalExpr(m, env, NotE(e3), w) == Bits.Xor(v3, ones, w);
    AddIdentity0(x, y, w);
  }

  lemma AddOps1Correct(m: Machine, env: Env, a: Expr, b: Expr, r: int, w: nat)
    ensures EvalExpr(m, env, AddOps(1, a, b, r), w) == Bits.Add(EvalExpr(m, env, a, w), EvalExpr(m, env, b, w), w)
  {
    var x, y := EvalExpr(m, env, a, w), EvalExpr(m, env, b, w);
    var c := Node(Add, b, Leaf(Imm(r)));
    assert EvalExpr(m, env, c, w) == Bits.Add(y, Bits.Wrap(r, w), w);
    assert EvalExpr(m, env, Node(Add, a, c), w) == Bits.Add(x, Bits.Add(y, Bits.Wrap(r, w), w), w);
    AddIdentity1(x, y, r, w);
  }

  lemma XorOpsCorrect(m: Machine, env: Env, k: nat, a: Expr, b: Expr, w: nat)
    requires k < 4
    ensures EvalExpr(m, env, XorOps(k, a, b), w) == Bits.Xor(EvalExpr(m, env, a, w), EvalExpr(m, env, b, w), w)
  {
    var x, y := EvalExpr(m, env, a, w), EvalExpr(m, env, b, w);
    NotEval(m, env, a, w);
    NotEval(m, env, b, w);
    if k == 0 {
      assert EvalExpr(m, env, Node(And, NotE(a), b), w) == Bits.And(Bits.Not(x, w), y, w);
      assert EvalExpr(m, env, Node(And, a, NotE(b)), w) == Bits.And(x, Bits.Not(y, w), w);
      XorIdentity0(x, y, w);
    } else if k == 1 {
      NotEval(m, env, Node(And, a, b), w);
      assert EvalExpr(m, env, Node(Or, a, b), w) == Bits.Or(x, y, w);
      XorIdentity1(x, y, w);
    } else if k == 2 {
      assert EvalExpr(m, env, Node(Add, a, b), w) == Bits.Add(x, y, w);
      assert EvalExpr(m, env, Node(Mul, Leaf(Imm(2)), Node(And, a, b)), w)
          == Bits.Mul(Bits.Wrap(2, w), Bits.And(x, y, w), w);
      XorIdentity2(x, y, w);
    } else {
      var nn := Node(And, NotE(a), NotE(b));
      assert EvalExpr(m, env, nn, w) == Bits.And(Bits.Not(x, w), Bits.Not(y, w), w);
      NotEval(m, env, nn, w);
      NotEval(m, env, Node(And, a, b), w);
      XorIdentity3(x, y, w);
    }
  }

  lemma MulOpsCorrect(m: Machine, env: Env, a: Expr, b: Expr, w: nat)
    ensures EvalExpr(m, env, MulOps(0, a, b), w) == Bits.Mul(EvalExpr(m, env, a, w), EvalExpr(m, env, b, w), w)
  {
    var x, y := EvalExpr(m, env, a, w), EvalExpr(m, env, b, w);
    NotEval(m, env, a, w);
    NotEval(m, env, b, w);
    var p1 := Node(Mul, Node(Or, a, b), Node(And, a, b));
    assert EvalExpr(m, env, p1, w) == Bits.Mul(Bits.Or(x, y, w), Bits.And(x, y, w), w);
    var p2 := Node(Mul, Node(And, a, NotE(b)), Node(And, b, NotE(a)));
    assert EvalExpr(m, env, p2, w) == Bits.Mul(Bits.And(x, Bits.Not(y, w), w), Bits.And(y, Bits.Not(x, w), w), w);
    MulIdentity(x, y, w);
  }

  lemma OrOpsCorrect(m: Machine, env: Env, k: nat, a: Expr, b: Expr, w: nat)
    requires k < 3
    ensures EvalExpr(m, env, OrOps(k, a, b), w) == Bits.Or(EvalExpr(m, env, a, w), EvalExpr(m, env, b, w), w)
  {
    var x, y := EvalExpr(m, env, a, w), EvalExpr(m, env, b, w);
    if k == 0 {
      NotEval(m, env, a, w);
      NotEval(m, env, b, w);
      var nn := Node(And, NotE(a), NotE(b));
      assert EvalExpr(m, env, nn, w) == Bits.And(Bits.Not(x, w), Bits.Not(y, w), w);
      NotEval(m, env, nn, w);
      OrIdentity0(x, y, w);
    } else if k == 1 {
      assert EvalExpr(m, env, Node(Xor, b, Node(And, a, b)), w) == Bits.Xor(y, Bits.And(x, y, w), w);
      OrIdentity1(x, y, w);
    } else {
      assert EvalExpr(m, env, Node(Add, a, b), w) == Bits.Add(x, y, w);
      OrIdentity2(x, y, w);
    }
  }

  /** The callbacks only read the instruction's operands and constants. */
  lemma CallbackLeaves(k: nat, i: Inst, r: int)
    requires k < Variants(i.op)
    ensures LeavesFrom(Callback(k, i, r), i)
  {
    var a, b := Leaf(i.lhs), Leaf(i.rhs);
    assert LeavesFrom(Leaf(Imm(-1)), i) && LeavesFrom(Leaf(Imm(0)), i);
    assert LeavesFrom(NotE(a), i) && LeavesFrom(NotE(b), i);
    assert LeavesFrom(NegE(a), i) && LeavesFrom(NegE(b), i);
    assert LeavesFrom(Node(And, a, b), i) && LeavesFrom(Node(Add, a, b), i);
    match i.op
    case Sub =>
    case Add =>
      assert LeavesFrom(Node(Add, NegE(a), NotE(b)), i);
      assert LeavesFrom(Node(Add, b, Leaf(Imm(r))), i);
    case Xor =>
      assert LeavesFrom(Node(And, NotE(a), NotE(b)), i);
    case Mul =>
    case Or =>
      assert LeavesFrom(Node(And, NotE(a), NotE(b)), i);
  }

  /** Every callback computes the instruction it replaces, in every
      environment: the code IRBuilder emits has the value the instruction had. */
  lemma CallbackComputes(m: Machine, k: nat, i: Inst, r: int)
    requires k < Variants(i.op)
    ensures Computes(m, Callback(k, i, r), i)
  {
    var a, b, w := Leaf(i.lhs), Leaf(i.rhs), i.width;
    forall env: Env
      ensures EvalExpr(m, env, Callback(k, i, r), w)
           == Apply(m, i.op, EvalValue(m, env, i.lhs, w), EvalValue(m, env, i.rhs, w), w)
    {
      assert EvalExpr(m, env, a, w) == EvalValue(m, env, i.lhs, w);
      assert EvalExpr(m, env, b, w) == EvalValue(m, env, i.rhs, w);
      match i.op
      case Sub => SubOpsCorrect(m, env, a, b, w);
      case Add => if k == 0 { AddOps0Correct(m, env, a, b, w); } else { AddOps1Correct(m, env, a, b, r, w); }
      case Xor => XorOpsCorrect(m, env, k, a, b, w);
      case Mul => MulOpsCorrect(m, env, a, b, w);
      case Or => OrOpsCorrect(m, env, k, a, b, w);
    }
  }
}
