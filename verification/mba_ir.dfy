/**
 * The slice of LLVM IR that the mixed boolean-arithmetic pass reads and
 * rewrites: integer binary instructions in SSA form, the values they use,
 * what IRBuilder emits for a nested builder expression, and
 * replaceAllUsesWith.
 *
 * A function body is executed straight-line, instruction after instruction,
 * and its meaning is the map from each instruction's id to the value it
 * computes.  Instructions carry their own bit width; every value they
 * produce is a word of that width (module Bits).
 */
module MbaIr {
  import Bits

  /** The integer opcodes the pass distinguishes; every other instruction is Other. */
  datatype Opcode = Add | Sub | Mul | And | Or | Xor | Other(code: nat)

  /** An operand: a function argument, the result of an instruction, or a constant. */
  datatype Value = Arg(index: nat) | Ref(id: nat) | Imm(k: int)

  /** A binary instruction `id = op width lhs, rhs`. */
  datatype Inst = Inst(id: nat, width: nat, op: Opcode, lhs: Value, rhs: Value)

  /** What the straight-line code cannot compute by itself: argument values
      and the meaning of instructions outside the pass's opcodes. */
  datatype Machine = Machine(args: nat -> int, other: (nat, int, int) -> int)

  type Env = map<nat, int>

  function Apply(m: Machine, op: Opcode, x: nat, y: nat, w: nat): (r: nat)
    ensures Bits.IsWord(r, w)
  {
    match op
    case Add => Bits.Add(x, y, w)
    case Sub => Bits.Sub(x, y, w)
    case Mul => Bits.Mul(x, y, w)
    case And => Bits.AndWord(x, y, w); Bits.And(x, y, w)
    case Or => Bits.OrWord(x, y, w); Bits.Or(x, y, w)
    case Xor => Bits.XorWord(x, y, w); Bits.Xor(x, y, w)
    case Other(c) => Bits.Wrap(m.other(c, x, y), w)
  }

  /** An operand read at width w; an id not yet defined reads as 0. */
  function EvalValue(m: Machine, env: Env, v: Value, w: nat): (r: nat)
    ensures Bits.IsWord(r, w)
  {
    match v
    case Arg(n) => Bits.Wrap(m.args(n), w)
    case Ref(id) => if id in env then Bits.Wrap(env[id], w) else 0
    case Imm(k) => Bits.Wrap(k, w)
  }

  function Step(m: Machine, env: Env, i: Inst): Env
  {
    env[i.id := Apply(m, i.op, EvalValue(m, env, i.lhs, i.width), EvalValue(m, env, i.rhs, i.width), i.width)]
  }

  function ExecFrom(m: Machine, env: Env, s: seq<Inst>): Env
    decreases |s|
  {
    if s == [] then env else ExecFrom(m, Step(m, env, s[0]), s[1..])
  }

  /** The value of every instruction of s, executed in order. */
  function Exec(m: Machine, s: seq<Inst>): Env
  {
    ExecFrom(m, map[], s)
  }

  /** env2 keeps every value env1 has. */
  ghost predicate Agree(env1: Env, env2: Env)
  {
    forall id :: id in env1 ==> id in env2 && env2[id] == env1[id]
  }

  function Ids(s: seq<Inst>): set<nat>
    decreases |s|
  {
    if s == [] then {} else {s[0].id} + Ids(s[1..])
  }

  predicate Defined(v: Value, defined: set<nat>)
  {
    v.Ref? ==> v.id in defined
  }

  /** SSA well-formedness of a straight-line body: every id is new and below
      `next` (the next fresh id), and every operand refers to an earlier
      definition. */
  predicate WfFrom(defined: set<nat>, s: seq<Inst>, next: nat)
    decreases |s|
  {
    s == [] ||
    (&& s[0].id !in defined
     && s[0].id < next
     && Defined(s[0].lhs, defined)
     && Defined(s[0].rhs, defined)
     && WfFrom(defined + {s[0].id}, s[1..], next))
  }

  predicate Wf(s: seq<Inst>, next: nat)
  {
    WfFrom({}, s, next)
  }

  /** No operand of s reads the result of instruction x. */
  predicate NoUse(s: seq<Inst>, x: nat)
  {
    forall k :: 0 <= k < |s| ==> s[k].lhs != Ref(x) && s[k].rhs != Ref(x)
  }

  // ---------------------------------------------------------------------
  // replaceAllUsesWith

  function RenameValue(v: Value, x: nat, to: Value): Value
  {
    if v == Ref(x) then to else v
  }

  function RenameInst(i: Inst, x: nat, to: Value): Inst
  {
    i.(lhs := RenameValue(i.lhs, x, to), rhs := RenameValue(i.rhs, x, to))
  }

  /** Every use of instruction x in s now reads `to` instead. */
  function Rename(s: seq<Inst>, x: nat, to: Value): (r: seq<Inst>)
    ensures |r| == |s|
    ensures forall k :: 0 <= k < |s| ==> r[k] == RenameInst(s[k], x, to)
    decreases |s|
  {
    if s == [] then [] else [RenameInst(s[0], x, to)] + Rename(s[1..], x, to)
  }

  // ---------------------------------------------------------------------
  // Builder expressions and what IRBuilder emits for them

  /** A nested IRBuilder expression over existing operands. */
  datatype Expr = Leaf(v: Value) | Node(op: Opcode, l: Expr, r: Expr)

  function EvalExpr(m: Machine, env: Env, e: Expr, w: nat): (r: nat)
    ensures Bits.IsWord(r, w)
  {
    match e
    case Leaf(v) => EvalValue(m, env, v, w)
    case Node(op, l, r) => Apply(m, op, EvalExpr(m, env, l, w), EvalExpr(m, env, r, w), w)
  }

  /** Every leaf of e that refers to an instruction refers to one in `defined`. */
  predicate LeavesDefined(e: Expr, defined: set<nat>)
  {
    match e
    case Leaf(v) => Defined(v, defined)
    case Node(_, l, r) => LeavesDefined(l, defined) && LeavesDefined(r, defined)
  }

  predicate LeavesNotRef(e: Expr, x: nat)
  {
    match e
    case Leaf(v) => v != Ref(x)
    case Node(_, l, r) => LeavesNotRef(l, x) && LeavesNotRef(r, x)
  }

  /** The instructions IRBuilder inserts for e, operands first (left, then
      right), each numbered with the next fresh id; the value that stands
      for e afterwards; and the next fresh id. */
  function Emit(e: Expr, w: nat, next: nat): (r: (seq<Inst>, Value, nat))
    ensures r.2 == next + |r.0|
    ensures forall k :: 0 <= k < |r.0| ==> r.0[k].id == next + k && r.0[k].width == w
    ensures e.Node? ==> |r.0| > 0 && r.1 == Ref(r.2 - 1)
    ensures e.Leaf? ==> r.0 == [] && r.1 == e.v
  {
    match e
    case Leaf(v) => ([], v, next)
    case Node(op, l, r) =>
      var (li, lv, n1) := Emit(l, w, next);
      var (ri, rv, n2) := Emit(r, w, n1);
      (li + ri + [Inst(n2, w, op, lv, rv)], Ref(n2), n2 + 1)
  }

  // ---------------------------------------------------------------------
  // Facts about execution and well-formedness

  lemma {:induction false} IdsAppend(a: seq<Inst>, b: seq<Inst>)
    ensures Ids(a + b) == Ids(a) + Ids(b)
    decreases |a|
  {
    if a == [] {
      assert a + b == b;
    } else {
      assert (a + b)[1..] == a[1..] + b;
      IdsAppend(a[1..], b);
    }
  }

  lemma {:induction false} IdsRange(s: seq<Inst>, lo: nat)
    requires forall k :: 0 <= k < |s| ==> s[k].id == lo + k
    ensures forall id :: id in Ids(s) ==> lo <= id < lo + |s|
    decreases |s|
  {
    if s != [] {
      IdsRange(s[1..], lo + 1);
    }
  }

  lemma {:induction false} IdsOfRename(s: seq<Inst>, x: nat, to: Value)
    ensures Ids(Rename(s, x, to)) == Ids(s)
    decreases |s|
  {
    if s != [] {
      assert Rename(s, x, to)[1..] == Rename(s[1..], x, to);
      IdsOfRename(s[1..], x, to);
    }
  }

  lemma {:induction false} ExecAppend(m: Machine, env: Env, a: seq<Inst>, b: seq<Inst>)
    ensures ExecFrom(m, env, a + b) == ExecFrom(m, ExecFrom(m, env, a), b)
    decreases |a|
  {
    if a == [] {
      assert a + b == b;
    } else {
      assert (a + b)[1..] == a[1..] + b;
      ExecAppend(m, Step(m, env, a[0]), a[1..], b);
    }
  }

  lemma {:induction false} ExecKeys(m: Machine, env: Env, s: seq<Inst>)
    ensures ExecFrom(m, env, s).Keys == env.Keys + Ids(s)
    decreases |s|
  {
    if s != [] {
      ExecKeys(m, Step(m, env, s[0]), s[1..]);
    }
  }

  /** Executing instructions keeps every value whose id none of them defines. */
  lemma {:induction false} ExecKeepsSome(m: Machine, env: Env, s: seq<Inst>, keep: set<nat>)
    requires keep <= env.Keys
    requires forall id :: id in Ids(s) ==> id !in keep
    ensures forall id :: id in keep ==> id in ExecFrom(m, env, s) && ExecFrom(m, env, s)[id] == env[id]
    decreases |s|
  {
    if s != [] {
      ExecKeepsSome(m, Step(m, env, s[0]), s[1..], keep);
    }
  }

  /** Executing instructions whose ids are all fresh keeps every existing value. */
  lemma ExecKeeps(m: Machine, env: Env, s: seq<Inst>)
    requires forall id :: id in Ids(s) ==> id !in env
    ensures Agree(env, ExecFrom(m, env, s))
  {
    ExecKeepsSome(m, env, s, env.Keys);
  }

  lemma {:induction false} WfMono(d: set<nat>, s: seq<Inst>, next: nat, next': nat)
    requires WfFrom(d, s, next) && next <= next'
    ensures WfFrom(d, s, next')
    decreases |s|
  {
    if s != [] {
      WfMono(d + {s[0].id}, s[1..], next, next');
    }
  }

  lemma {:induction false} WfAppend(d: set<nat>, a: seq<Inst>, b: seq<Inst>, next: nat)
    ensures WfFrom(d, a + b, next) <==> WfFrom(d, a, next) && WfFrom(d + Ids(a), b, next)
    decreases |a|
  {
    if a == [] {
      assert a + b == b;
      assert d + Ids(a) == d;
    } else {
      assert (a + b)[1..] == a[1..] + b;
      assert d + {a[0].id} + Ids(a[1..]) == d + Ids(a);
      WfAppend(d + {a[0].id}, a[1..], b, next);
    }
  }

  /** In a well-formed body every operand refers to the defined set or to an id of the body. */
  lemma {:induction false} WfUses(d: set<nat>, s: seq<Inst>, next: nat, k: nat)
    requires WfFrom(d, s, next)
    requires k < |s|
    ensures Defined(s[k].lhs, d + Ids(s[..k])) && Defined(s[k].rhs, d + Ids(s[..k]))
    ensures s[k].id !in d + Ids(s[..k])
    ensures s[k].id < next
    decreases k
  {
    if k > 0 {
      WfUses(d + {s[0].id}, s[1..], next, k - 1);
      assert s[1..][..k - 1] == s[..k][1..];
    }
  }

  lemma {:induction false} WfIds(d: set<nat>, s: seq<Inst>, next: nat)
    requires WfFrom(d, s, next)
    ensures forall id :: id in Ids(s) ==> id < next && id !in d
    decreases |s|
  {
    if s != [] {
      WfIds(d + {s[0].id}, s[1..], next);
    }
  }

  /** A well-formed body never uses an instruction that is neither defined before it nor in it. */
  lemma {:induction false} WfNoUse(d: set<nat>, s: seq<Inst>, next: nat, x: nat)
    requires WfFrom(d, s, next)
    requires x !in d && x !in Ids(s)
    ensures NoUse(s, x)
    decreases |s|
  {
    if s != [] {
      WfNoUse(d + {s[0].id}, s[1..], next, x);
      assert forall k :: 1 <= k < |s| ==> s[k] == s[1..][k - 1];
    }
  }

  lemma {:induction false} RenameUnused(s: seq<Inst>, x: nat, to: Value)
    requires NoUse(s, x)
    ensures Rename(s, x, to) == s
  {
    assert forall k :: 0 <= k < |s| ==> RenameInst(s[k], x, to) == s[k];
  }

  lemma {:induction false} RenameAppend(a: seq<Inst>, b: seq<Inst>, x: nat, to: Value)
    ensures Rename(a + b, x, to) == Rename(a, x, to) + Rename(b, x, to)
  {
  }

  /** A renamed body stays well-formed in a larger defined set that holds the
      replacement and no id of the body. */
  lemma {:induction false} WfRename(d: set<nat>, d': set<nat>, s: seq<Inst>, next: nat, next': nat, x: nat, to: Value)
    requires WfFrom(d, s, next)
    requires d <= d' && next <= next'
    requires forall id :: id in d' && id !in d ==> id >= next
    requires Defined(to, d')
    ensures WfFrom(d', Rename(s, x, to), next')
    decreases |s|
  {
    if s != [] {
      var i := s[0];
      assert Rename(s, x, to)[1..] == Rename(s[1..], x, to);
      WfRename(d + {i.id}, d' + {i.id}, s[1..], next, next', x, to);
    }
  }

  // ---------------------------------------------------------------------
  // What IRBuilder emits computes the builder expression

  lemma {:induction false} EmitWf(d: set<nat>, e: Expr, w: nat, next: nat)
    requires forall id :: id in d ==> id < next
    requires LeavesDefined(e, d)
    ensures WfFrom(d, Emit(e, w, next).0, Emit(e, w, next).2)
    ensures Defined(Emit(e, w, next).1, d + Ids(Emit(e, w, next).0))
    ensures forall id :: id in Ids(Emit(e, w, next).0) ==> next <= id < Emit(e, w, next).2
    decreases e
  {
    var (insts, root, n') := Emit(e, w, next);
    IdsRange(insts, next);
    match e
    case Leaf(v) =>
    case Node(op, l, r) =>
      var (li, lv, n1) := Emit(l, w, next);
      var (ri, rv, n2) := Emit(r, w, n1);
      var last := Inst(n2, w, op, lv, rv);
      EmitWf(d, l, w, next);
      IdsRange(li, next);
      LeavesGrow(r, d, d + Ids(li));
      EmitWf(d + Ids(li), r, w, n1);
      IdsRange(ri, n1);
      WfMono(d, li, n1, n');
      WfMono(d + Ids(li), ri, n2, n');
      LeavesGrowDefined(lv, d + Ids(li), d + Ids(li) + Ids(ri));
      assert WfFrom(d + Ids(li) + Ids(ri), [last], n');
      WfAppend(d + Ids(li), ri, [last], n');
      WfAppend(d, li, ri + [last], n');
      assert insts == li + (ri + [last]);
      IdsAppend(li, ri + [last]);
      IdsAppend(ri, [last]);
  }

  lemma LeavesGrowDefined(v: Value, d: set<nat>, d': set<nat>)
    requires Defined(v, d) && d <= d'
    ensures Defined(v, d')
  {
  }

  lemma {:induction false} EmitNoUse(e: Expr, w: nat, next: nat, x: nat)
    requires x < next
    requires LeavesNotRef(e, x)
    ensures NoUse(Emit(e, w, next).0, x)
    ensures Emit(e, w, next).1 != Ref(x)
  {
    match e
    case Leaf(v) =>
    case Node(op, l, r) =>
      var (li, lv, n1) := Emit(l, w, next);
      EmitNoUse(l, w, next, x);
      EmitNoUse(r, w, n1, x);
  }

  lemma {:induction false} EmitCorrect(m: Machine, env: Env, e: Expr, w: nat, next: nat)
    requires forall id :: id in env ==> id < next
    requires LeavesDefined(e, env.Keys)
    ensures Agree(env, ExecFrom(m, env, Emit(e, w, next).0))
    ensures EvalValue(m, ExecFrom(m, env, Emit(e, w, next).0), Emit(e, w, next).1, w) == EvalExpr(m, env, e, w)
    ensures e.Node? ==> var root := Emit(e, w, next).1;
      root.id in ExecFrom(m, env, Emit(e, w, next).0) &&
      ExecFrom(m, env, Emit(e, w, next).0)[root.id] == EvalExpr(m, env, e, w)
    decreases e, 1
  {
    var (insts, root, n') := Emit(e, w, next);
    IdsRange(insts, next);
    ExecKeeps(m, env, insts);
    match e
    case Leaf(v) =>
    case Node(op, l, r) =>
      var (li, lv, n1) := Emit(l, w, next);
      var (ri, rv, n2) := Emit(r, w, n1);
      var env1 := ExecFrom(m, env, li);
      var env2 := ExecFrom(m, env1, ri);
      var x, y := EvalExpr(m, env, l, w), EvalExpr(m, env, r, w);
      EmitLeftRight(m, env, e, w, next);
      var last := Inst(n2, w, op, lv, rv);
      assert insts == (li + ri) + [last];
      ExecAppend(m, env, li, ri);
      ExecAppend(m, env, li + ri, [last]);
      assert ExecFrom(m, env, insts) == Step(m, env2, last);
      Bits.ModOfWord(Apply(m, op, x, y, w), w);
  }

  /** After the instructions of both operands, each operand's value reads as its expression. */
  lemma {:induction false} EmitLeftRight(m: Machine, env: Env, e: Expr, w: nat, next: nat)
    requires e.Node?
    requires forall id :: id in env ==> id < next
    requires LeavesDefined(e, env.Keys)
    ensures var (li, lv, n1) := Emit(e.l, w, next);
            var (ri, rv, n2) := Emit(e.r, w, n1);
            var env2 := ExecFrom(m, ExecFrom(m, env, li), ri);
            EvalValue(m, env2, lv, w) == EvalExpr(m, env, e.l, w) &&
            EvalValue(m, env2, rv, w) == EvalExpr(m, env, e.r, w)
    decreases e, 0
  {
    var l, r := e.l, e.r;
    var (li, lv, n1) := Emit(l, w, next);
    var (ri, rv, n2) := Emit(r, w, n1);
    var env1 := ExecFrom(m, env, li);
    var env2 := ExecFrom(m, env1, ri);
    EmitCorrect(m, env, l, w, next);
    ExecKeys(m, env, li);
    IdsRange(li, next);
    LeavesGrow(r, env.Keys, env1.Keys);
    EmitCorrect(m, env1, r, w, n1);
    IdsRange(ri, n1);
    ExecKeeps(m, env1, ri);
    EmitWf(env.Keys, l, w, next);
    assert EvalValue(m, env2, lv, w) == EvalValue(m, env1, lv, w);
    EvalExprAgree(m, env, env1, r, w);
  }

  /** An expression reads the same in an environment that keeps every value it reads. */
  lemma {:induction false} EvalExprAgree(m: Machine, env: Env, env': Env, e: Expr, w: nat)
    requires Agree(env, env')
    requires LeavesDefined(e, env.Keys)
    ensures EvalExpr(m, env', e, w) == EvalExpr(m, env, e, w)
  {
    match e
    case Leaf(v) =>
    case Node(_, l, r) =>
      EvalExprAgree(m, env, env', l, w);
      EvalExprAgree(m, env, env', r, w);
  }

  lemma {:induction false} LeavesGrow(e: Expr, d: set<nat>, d': set<nat>)
    requires LeavesDefined(e, d) && d <= d'
    ensures LeavesDefined(e, d')
  {
    match e
    case Leaf(v) =>
    case Node(_, l, r) =>
      LeavesGrow(l, d, d');
      LeavesGrow(r, d, d');
  }

  // ---------------------------------------------------------------------
  // Replacing one instruction: insert the builder's code before it and
  // redirect its uses (IRBuilder positioned at the instruction, then
  // replaceAllUsesWith; the instruction itself is not erased)

  /** Every leaf of e is an operand of i or a constant. */
  predicate LeavesFrom(e: Expr, i: Inst)
  {
    match e
    case Leaf(v) => v == i.lhs || v == i.rhs || v.Imm?
    case Node(_, l, r) => LeavesFrom(l, i) && LeavesFrom(r, i)
  }

  /** e computes what i computes, from the same operands, in every environment. */
  ghost predicate Computes(m: Machine, e: Expr, i: Inst)
  {
    forall env: Env {:trigger EvalExpr(m, env, e, i.width)} ::
      EvalExpr(m, env, e, i.width) ==
      Apply(m, i.op, EvalValue(m, env, i.lhs, i.width), EvalValue(m, env, i.rhs, i.width), i.width)
  }

  function ReplaceAt(s: seq<Inst>, pos: nat, e: Expr, next: nat): (r: (seq<Inst>, nat))
    requires pos < |s|
  {
    var (insts, root, next') := Emit(e, s[pos].width, next);
    (Rename(s[..pos] + insts + s[pos..], s[pos].id, root), next')
  }

  lemma {:induction false} LeavesFromDefined(e: Expr, i: Inst, d: set<nat>)
    requires LeavesFrom(e, i) && Defined(i.lhs, d) && Defined(i.rhs, d)
    ensures LeavesDefined(e, d)
  {
    match e
    case Leaf(v) =>
    case Node(_, l, r) =>
      LeavesFromDefined(l, i, d);
      LeavesFromDefined(r, i, d);
  }

  lemma {:induction false} LeavesFromNotRef(e: Expr, i: Inst, x: nat)
    requires LeavesFrom(e, i) && i.lhs != Ref(x) && i.rhs != Ref(x)
    ensures LeavesNotRef(e, x)
  {
    match e
    case Leaf(v) =>
    case Node(_, l, r) =>
      LeavesFromNotRef(l, i, x);
      LeavesFromNotRef(r, i, x);
  }

  /** Renaming uses of x to something other than x leaves no use of x. */
  lemma RenameRemoves(s: seq<Inst>, x: nat, to: Value)
    requires to != Ref(x)
    ensures NoUse(Rename(s, x, to), x)
  {
  }

  lemma NoUseAppend(a: seq<Inst>, b: seq<Inst>, x: nat)
    requires NoUse(a, x) && NoUse(b, x)
    ensures NoUse(a + b, x)
  {
    assert forall k :: |a| <= k < |a + b| ==> (a + b)[k] == b[k - |a|];
  }

  /** The pieces of a body around position pos, as a well-formed body has them. */
  lemma WfSplit(s: seq<Inst>, pos: nat, next: nat)
    requires Wf(s, next) && pos < |s|
    ensures s == s[..pos] + [s[pos]] + s[pos + 1..]
    ensures Wf(s[..pos], next)
    ensures s[pos].id !in Ids(s[..pos]) && s[pos].id < next
    ensures Defined(s[pos].lhs, Ids(s[..pos])) && Defined(s[pos].rhs, Ids(s[..pos]))
    ensures WfFrom(Ids(s[..pos]) + {s[pos].id}, s[pos + 1..], next)
    ensures forall id :: id in Ids(s[..pos]) ==> id < next
  {
    var p, i, q := s[..pos], s[pos], s[pos + 1..];
    assert s == p + ([i] + q);
    WfAppend({}, p, [i] + q, next);
    assert {} + Ids(p) == Ids(p);
    WfIds({}, p, next);
  }

  /** Inserting well-formed fresh code before i and renaming the uses of i
      after it to a value of that code gives a well-formed body without
      uses of i. */
  lemma SpliceWf(p: seq<Inst>, i: Inst, q: seq<Inst>, insts: seq<Inst>, root: Value, next: nat, next': nat)
    requires Wf(p, next) && next <= next'
    requires i.id !in Ids(p) && i.id < next
    requires Defined(i.lhs, Ids(p)) && Defined(i.rhs, Ids(p))
    requires WfFrom(Ids(p) + {i.id}, q, next)
    requires WfFrom(Ids(p), insts, next')
    requires forall id :: id in Ids(insts) ==> next <= id
    requires Defined(root, Ids(p) + Ids(insts))
    ensures Wf(p + insts + [i] + Rename(q, i.id, root), next')
  {
    var x := i.id;
    var rq := Rename(q, x, root);
    var dE := Ids(p) + Ids(insts);
    WfMono({}, p, next, next');
    assert WfFrom(dE, [i], next');
    assert Ids([i]) == {x};
    WfRename(Ids(p) + {x}, dE + {x}, q, next, next', x, root);
    WfAppend(dE, [i], rq, next');
    WfAppend(Ids(p), insts, [i] + rq, next');
    assert {} + Ids(p) == Ids(p);
    WfAppend({}, p, insts + ([i] + rq), next');
    AppendFour(p, insts, [i], rq);
  }

  /** Regrouping four pieces of code. */
  lemma AppendFour(a: seq<Inst>, b: seq<Inst>, c: seq<Inst>, d: seq<Inst>)
    ensures a + b + c + d == a + (b + (c + d))
  {
  }

  /** The same splice keeps the value of every instruction, when the inserted
      code leaves earlier values alone and computes i's value at rid. */
  lemma SpliceExec(m: Machine, p: seq<Inst>, i: Inst, q: seq<Inst>, insts: seq<Inst>, rid: nat, next: nat)
    requires i.id !in Ids(p)
    requires Defined(i.lhs, Ids(p)) && Defined(i.rhs, Ids(p))
    requires WfFrom(Ids(p) + {i.id}, q, next)
    requires rid >= next && rid != i.id
    requires Agree(Exec(m, p), ExecFrom(m, Exec(m, p), insts))
    requires rid in ExecFrom(m, Exec(m, p), insts)
    requires ExecFrom(m, Exec(m, p), insts)[rid] == Step(m, Exec(m, p), i)[i.id]
    ensures Agree(Exec(m, p + [i] + q), Exec(m, p + insts + [i] + Rename(q, i.id, Ref(rid))))
  {
    var x, w := i.id, i.width;
    var envP := Exec(m, p);
    ExecKeys(m, map[], p);
    assert envP.Keys == Ids(p);
    var envA := Step(m, envP, i);
    var envE := ExecFrom(m, envP, insts);
    var envB := Step(m, envE, i);
    var rq := Rename(q, x, Ref(rid));
    ExecAppend(m, map[], p + [i], q);
    ExecAppend(m, map[], p, [i]);
    ExecAppend(m, map[], p + insts + [i], rq);
    ExecAppend(m, map[], p + insts, [i]);
    ExecAppend(m, map[], p, insts);
    assert EvalValue(m, envE, i.lhs, w) == EvalValue(m, envP, i.lhs, w);
    assert EvalValue(m, envE, i.rhs, w) == EvalValue(m, envP, i.rhs, w);
    assert envA.Keys == Ids(p) + {x};
    RenamedSuffix(m, envA, envB, q, x, rid, next);
  }

  lemma RenamedOperand(m: Machine, envA: Env, envB: Env, v: Value, x: nat, rid: nat, w: nat)
    requires Defined(v, envA.Keys) && Agree(envA, envB)
    requires x in envA && rid in envB && envB[rid] == envA[x]
    ensures EvalValue(m, envB, RenameValue(v, x, Ref(rid)), w) == EvalValue(m, envA, v, w)
  {
  }

  /** After the replacement point, the renamed suffix computes the same values. */
  lemma {:induction false} RenamedSuffix(m: Machine, envA: Env, envB: Env, q: seq<Inst>, x: nat, rid: nat, next: nat)
    requires WfFrom(envA.Keys, q, next)
    requires Agree(envA, envB)
    requires x in envA && rid in envB && envB[rid] == envA[x]
    requires rid >= next
    ensures Agree(ExecFrom(m, envA, q), ExecFrom(m, envB, Rename(q, x, Ref(rid))))
    decreases |q|
  {
    if q != [] {
      var j := q[0];
      var j' := RenameInst(j, x, Ref(rid));
      RenamedOperand(m, envA, envB, j.lhs, x, rid, j.width);
      RenamedOperand(m, envA, envB, j.rhs, x, rid, j.width);
      var envA', envB' := Step(m, envA, j), Step(m, envB, j');
      assert envA'.Keys == envA.Keys + {j.id};
      assert Rename(q, x, Ref(rid))[1..] == Rename(q[1..], x, Ref(rid));
      RenamedSuffix(m, envA', envB', q[1..], x, rid, next);
    }
  }

  /** Renaming the uses of x in a body that uses x only after position |p| + |insts|. */
  lemma RenameSplice(p: seq<Inst>, insts: seq<Inst>, i: Inst, q: seq<Inst>, x: nat, to: Value)
    requires NoUse(p, x) && NoUse(insts, x) && NoUse([i], x)
    ensures Rename(p + insts + ([i] + q), x, to) == p + insts + [i] + Rename(q, x, to)
  {
    RenameAppend(p + insts, [i] + q, x, to);
    RenameAppend(p, insts, x, to);
    RenameAppend([i], q, x, to);
    RenameUnused(p, x, to);
    RenameUnused(insts, x, to);
    RenameUnused([i], x, to);
  }

  /** ReplaceAt leaves the prefix, the emitted code and the instruction
      itself untouched: only the uses after the instruction are renamed. */
  lemma ReplaceAtShape(s: seq<Inst>, pos: nat, e: Expr, next: nat)
    requires Wf(s, next) && pos < |s|
    requires e.Node? && LeavesFrom(e, s[pos])
    ensures var em := Emit(e, s[pos].width, next);
      && ReplaceAt(s, pos, e, next).0 == s[..pos] + em.0 + [s[pos]] + Rename(s[pos + 1..], s[pos].id, em.1)
      && em.1 != Ref(s[pos].id)
  {
    var em := Emit(e, s[pos].width, next);
    var p, i, q := s[..pos], s[pos], s[pos + 1..];
    var x := i.id;
    WfSplit(s, pos, next);
    WfNoUse({}, p, next, x);
    LeavesFromNotRef(e, i, x);
    EmitNoUse(e, i.width, next, x);
    assert s[pos..] == [i] + q;
    RenameSplice(p, em.0, i, q, x, em.1);
  }

  /** Replacing an instruction keeps the body well-formed, leaves no use of
      the replaced instruction, and adds exactly the emitted ids, all fresh. */
  lemma ReplaceAtWf(s: seq<Inst>, pos: nat, e: Expr, next: nat)
    requires Wf(s, next) && pos < |s|
    requires e.Node? && LeavesFrom(e, s[pos])
    ensures var (s', next') := ReplaceAt(s, pos, e, next);
      && Wf(s', next')
      && NoUse(s', s[pos].id)
      && Ids(s') == Ids(s) + Ids(Emit(e, s[pos].width, next).0)
      && (forall id :: id in Ids(s') ==> id in Ids(s) || next <= id)
      && next <= next'
  {
    ReplaceAtShape(s, pos, e, next);
    ReplaceAtKeepsWf(s, pos, e, next);
    ReplaceAtClears(s, pos, e, next);
    ReplaceAtIds(s, pos, e, next);
  }

  /** The spliced body, as ReplaceAtShape gives it, is well formed. */
  lemma ReplaceAtKeepsWf(s: seq<Inst>, pos: nat, e: Expr, next: nat)
    requires Wf(s, next) && pos < |s|
    requires e.Node? && LeavesFrom(e, s[pos])
    ensures var em := Emit(e, s[pos].width, next);
      Wf(s[..pos] + em.0 + [s[pos]] + Rename(s[pos + 1..], s[pos].id, em.1), em.2) && next <= em.2
  {
    var (insts, root, next') := Emit(e, s[pos].width, next);
    var p, i, q := s[..pos], s[pos], s[pos + 1..];
    WfSplit(s, pos, next);
    LeavesFromDefined(e, i, Ids(p));
    EmitWf(Ids(p), e, i.width, next);
    SpliceWf(p, i, q, insts, root, next, next');
  }

  /** In the spliced body nothing reads the replaced instruction. */
  lemma ReplaceAtClears(s: seq<Inst>, pos: nat, e: Expr, next: nat)
    requires Wf(s, next) && pos < |s|
    requires e.Node? && LeavesFrom(e, s[pos])
    ensures var em := Emit(e, s[pos].width, next);
      NoUse(s[..pos] + em.0 + [s[pos]] + Rename(s[pos + 1..], s[pos].id, em.1), s[pos].id)
  {
    var (insts, root, next') := Emit(e, s[pos].width, next);
    var p, i, q := s[..pos], s[pos], s[pos + 1..];
    var x := i.id;
    ReplaceAtShape(s, pos, e, next);
    WfSplit(s, pos, next);
    var rq := Rename(q, x, root);
    WfNoUse({}, p, next, x);
    LeavesFromNotRef(e, i, x);
    EmitNoUse(e, i.width, next, x);
    RenameRemoves(q, x, root);
    assert NoUse([i], x);
    NoUseAppend(p, insts, x);
    NoUseAppend(p + insts, [i], x);
    NoUseAppend(p + insts + [i], rq, x);
  }

  /** The spliced body holds the old ids and the emitted ones, and no other. */
  lemma ReplaceAtIds(s: seq<Inst>, pos: nat, e: Expr, next: nat)
    requires Wf(s, next) && pos < |s|
    requires e.Node? && LeavesFrom(e, s[pos])
    ensures var em := Emit(e, s[pos].width, next);
      var s' := s[..pos] + em.0 + [s[pos]] + Rename(s[pos + 1..], s[pos].id, em.1);
      && Ids(s') == Ids(s) + Ids(em.0)
      && (forall id :: id in Ids(s') ==> id in Ids(s) || next <= id)
  {
    var (insts, root, next') := Emit(e, s[pos].width, next);
    var p, i, q := s[..pos], s[pos], s[pos + 1..];
    var x := i.id;
    var rq := Rename(q, x, root);
    assert s == p + [i] + q;
    IdsOfRename(q, x, root);
    IdsAppend(p + [i], q);
    IdsAppend(p, [i]);
    IdsAppend(p + insts + [i], rq);
    IdsAppend(p + insts, [i]);
    IdsAppend(p, insts);
    IdsRange(insts, next);
  }

  /** An instruction that had no uses still has none after a replacement. */
  lemma ReplaceAtNoUse(s: seq<Inst>, pos: nat, e: Expr, next: nat, y: nat)
    requires Wf(s, next) && pos < |s|
    requires e.Node? && LeavesFrom(e, s[pos])
    requires y in Ids(s) && NoUse(s, y)
    ensures NoUse(ReplaceAt(s, pos, e, next).0, y)
  {
    var em := Emit(e, s[pos].width, next);
    var p, i, q := s[..pos], s[pos], s[pos + 1..];
    var x := i.id;
    if y == x {
      ReplaceAtWf(s, pos, e, next);
    } else {
      ReplaceAtShape(s, pos, e, next);
      WfSplit(s, pos, next);
      WfIds({}, s, next);
      assert NoUse(p, y) && NoUse([i], y) && NoUse(q, y) by {
        assert forall k :: 0 <= k < |p| ==> p[k] == s[k];
        assert forall k :: 0 <= k < |q| ==> q[k] == s[pos + 1 + k];
      }
      LeavesFromNotRef(e, i, y);
      EmitNoUse(e, i.width, next, y);
      assert em.1 != Ref(y);
      var rq := Rename(q, x, em.1);
      assert NoUse(rq, y);
      NoUseAppend(p, em.0, y);
      NoUseAppend(p + em.0, [i], y);
      NoUseAppend(p + em.0 + [i], rq, y);
    }
  }

  /** From body s to body s': s' is in SSA form, every instruction of s is
      still there and computes the same value, new instructions get fresh
      ids, and an instruction without uses stays without uses. */
  ghost predicate Refines(m: Machine, s: seq<Inst>, next: nat, s': seq<Inst>, next': nat)
  {
    && Wf(s', next')
    && next <= next'
    && Agree(Exec(m, s), Exec(m, s'))
    && Ids(s) <= Ids(s')
    && (forall id :: id in Ids(s') ==> id in Ids(s) || next <= id)
    && (forall y :: y in Ids(s) && NoUse(s, y) ==> NoUse(s', y))
  }

  /** Replacing a computing instruction by its expansion refines the body
      and leaves the replaced instruction unused. */
  lemma ReplaceAtRefines(m: Machine, s: seq<Inst>, pos: nat, e: Expr, next: nat)
    requires Wf(s, next) && pos < |s|
    requires e.Node? && LeavesFrom(e, s[pos]) && Computes(m, e, s[pos])
    ensures var (s', next') := ReplaceAt(s, pos, e, next);
      Refines(m, s, next, s', next') && NoUse(s', s[pos].id)
  {
    ReplaceAtWf(s, pos, e, next);
    ReplaceAtPreserves(m, s, pos, e, next);
    forall y | y in Ids(s) && NoUse(s, y)
      ensures NoUse(ReplaceAt(s, pos, e, next).0, y)
    {
      ReplaceAtNoUse(s, pos, e, next, y);
    }
  }

  lemma ReplaceAtPreserves(m: Machine, s: seq<Inst>, pos: nat, e: Expr, next: nat)
    requires Wf(s, next) && pos < |s|
    requires e.Node? && LeavesFrom(e, s[pos])
    requires Computes(m, e, s[pos])
    ensures Agree(Exec(m, s), Exec(m, ReplaceAt(s, pos, e, next).0))
  {
    var envP := Exec(m, s[..pos]);
    assert EvalExpr(m, envP, e, s[pos].width) == Step(m, envP, s[pos])[s[pos].id];
    ReplaceAtKeeps(m, s, pos, e, next);
  }

  lemma ReplaceAtKeeps(m: Machine, s: seq<Inst>, pos: nat, e: Expr, next: nat)
    requires Wf(s, next) && pos < |s|
    requires e.Node? && LeavesFrom(e, s[pos])
    requires EvalExpr(m, Exec(m, s[..pos]), e, s[pos].width) == Step(m, Exec(m, s[..pos]), s[pos])[s[pos].id]
    ensures Agree(Exec(m, s), Exec(m, ReplaceAt(s, pos, e, next).0))
  {
    var em := Emit(e, s[pos].width, next);
    var p, i, q := s[..pos], s[pos], s[pos + 1..];
    var insts, root := em.0, em.1;
    var rid: nat := root.id;
    ReplaceAtShape(s, pos, e, next);
    WfSplit(s, pos, next);
    var envP := Exec(m, p);
    ExecKeys(m, map[], p);
    assert envP.Keys == Ids(p);
    LeavesFromDefined(e, i, Ids(p));
    EmitCorrect(m, envP, e, i.width, next);
    assert root == Ref(rid);
    assert rid >= next && rid != i.id;
    SpliceExec(m, p, i, q, insts, rid, next);
    assert ReplaceAt(s, pos, e, next).0 == p + insts + [i] + Rename(q, i.id, Ref(rid));
    assert s == p + [i] + q;
  }
}
