/**
 * The mixed boolean-arithmetic substitution pass (MBASub): for each basic
 * block, and for each of the opcodes mul, sub, add, xor, or in that order,
 * the matching instructions present at that moment are collected and then
 * each is replaced by a randomly chosen callback of the catalog: the
 * callback's code is inserted before the instruction and every use of the
 * instruction, anywhere in the function, is redirected to it.  The
 * instruction itself stays in place.  The whole walk over the blocks is
 * repeated PassIterations times.
 *
 * A function is a sequence of blocks of instructions; its meaning is the
 * straight-line execution of its blocks in layout order (module MbaIr).
 * The random generator is a stream of draws; each Random::IntRanged call
 * consumes one.
 *
 * The first half states the pass as functions over a snapshot of the
 * function (Pass) and proves what it keeps; the second half is the pass as
 * it runs, methods on a function object and a generator object, each
 * proved to compute those functions.
 */
module MbaSub {
  import Bits
  import opened MbaIr
  import opened MbaCatalog
  import opened Optional
  import PassMetadata

  /** The whole body in layout order. */
  function Flatten(blocks: seq<seq<Inst>>): seq<Inst>
    decreases |blocks|
  {
    if blocks == [] then [] else blocks[0] + Flatten(blocks[1..])
  }

  /** replaceAllUsesWith on a whole function. */
  function RenameAll(blocks: seq<seq<Inst>>, x: nat, to: Value): (r: seq<seq<Inst>>)
    ensures |r| == |blocks|
    ensures forall k :: 0 <= k < |blocks| ==> r[k] == Rename(blocks[k], x, to)
  {
    seq(|blocks|, k requires 0 <= k < |blocks| => Rename(blocks[k], x, to))
  }

  /** Where the instruction with this id sits in a block, if it is there. */
  function IndexOf(s: seq<Inst>, id: nat): (r: Option<nat>)
    ensures r.Some? ==> r.value < |s| && s[r.value].id == id
    ensures r.None? ==> forall k :: 0 <= k < |s| ==> s[k].id != id
    decreases |s|
  {
    if s == [] then None
    else if s[0].id == id then Some(0)
    else match IndexOf(s[1..], id)
      case None => None
      case Some(k) => Some(k + 1)
  }

  /** The block holds an instruction with this id and opcode. */
  predicate Has(s: seq<Inst>, id: nat, op: Opcode)
  {
    exists k :: 0 <= k < |s| && s[k].id == id && s[k].op == op
  }

  /** The instructions vector of runOn<Op>: the ids of the block's
      instructions with opcode op, in block order. */
  function Targets(s: seq<Inst>, op: Opcode): seq<nat>
    decreases |s|
  {
    if s == [] then []
    else (if s[0].op == op then [s[0].id] else []) + Targets(s[1..], op)
  }

  lemma {:induction false} TargetsExact(s: seq<Inst>, op: Opcode)
    ensures forall x :: x in Targets(s, op) <==> Has(s, x, op)
    decreases |s|
  {
    if s != [] {
      TargetsExact(s[1..], op);
      forall x
        ensures Has(s, x, op) <==> (s[0].op == op && x == s[0].id) || Has(s[1..], x, op)
      {
        if Has(s, x, op) {
          var k :| 0 <= k < |s| && s[k].id == x && s[k].op == op;
          if k > 0 { assert s[1..][k - 1] == s[k]; }
        }
        if Has(s[1..], x, op) {
          var k :| 0 <= k < |s[1..]| && s[1..][k].id == x && s[1..][k].op == op;
          assert s[k + 1] == s[1..][k];
        }
      }
    }
  }

  // ---------------------------------------------------------------------
  // Random::IntRanged as a draw from a stream

  /** The stream of raw draws of the generator. */
  type Draws = nat -> nat

  /** Random::IntRanged(lo, hi) made from one raw draw d. */
  function Pick(d: nat, lo: nat, hi: nat): (v: nat)
    requires lo <= hi
    ensures lo <= v <= hi
  {
    lo + d % (hi - lo + 1)
  }

  const UINT64_MAX: nat := 0xFFFF_FFFF_FFFF_FFFF

  /** Obfuscate<Op> for instruction i: no replacement when i's opcode is not
      op; otherwise the callback picked by the next draw, applied to i, and
      the number of draws used so far (the second Add callback draws its
      random constant as well). */
  function Obfuscate(op: Opcode, i: Inst, draws: Draws, drawn: nat): (r: Option<(Expr, nat)>)
    requires Variants(op) > 0
  {
    if i.op != op then None
    else
      var k := Pick(draws(drawn), 0, Variants(op) - 1);
      if op == Add && k == 1 then
        Some((Callback(k, i, Pick(draws(drawn + 1), 0, UINT64_MAX - 1)), drawn + 2))
      else
        Some((Callback(k, i, 0), drawn + 1))
  }

  /** Obfuscate<Op> declines exactly the instructions of another opcode; what
      it returns reads only i's operands and computes i's value, and it uses
      one draw, or two for the second Add callback. */
  lemma ObfuscateCorrect(m: Machine, op: Opcode, i: Inst, draws: Draws, drawn: nat)
    requires Variants(op) > 0
    ensures Obfuscate(op, i, draws, drawn).None? <==> i.op != op
    ensures Obfuscate(op, i, draws, drawn).Some? ==>
      var (e, drawn') := Obfuscate(op, i, draws, drawn).value;
      && e.Node? && LeavesFrom(e, i) && Computes(m, e, i)
      && drawn + 1 <= drawn' <= drawn + 2 && (op != Add ==> drawn' == drawn + 1)
  {
    if i.op == op {
      var k := Pick(draws(drawn), 0, Variants(op) - 1);
      var r := if op == Add && k == 1 then Pick(draws(drawn + 1), 0, UINT64_MAX - 1) else 0;
      CallbackLeaves(k, i, r);
      CallbackComputes(m, k, i, r);
    }
  }

  // ---------------------------------------------------------------------
  // The pass as functions

  /** The state the pass works on: the function's blocks, the next fresh
      instruction id, and the number of draws taken from the generator. */
  datatype Pass = Pass(blocks: seq<seq<Inst>>, next: nat, drawn: nat)

  /** The body is in SSA form and every id is below next. */
  predicate Inv(st: Pass)
  {
    Wf(Flatten(st.blocks), st.next)
  }

  /** The body of one iteration of the loop in runOn<Op>: replace the
      instruction x of block b. */
  function RewriteOne(draws: Draws, st: Pass, b: nat, op: Opcode, x: nat): (r: Pass)
    requires b < |st.blocks| && Variants(op) > 0
    ensures |r.blocks| == |st.blocks|
  {
    match IndexOf(st.blocks[b], x)
    case None => st
    case Some(pos) =>
      var i := st.blocks[b][pos];
      match Obfuscate(op, i, draws, st.drawn)
      case None => st
      case Some((e, drawn')) =>
        var (insts, root, next') := Emit(e, i.width, st.next);
        var blk := st.blocks[b][..pos] + insts + st.blocks[b][pos..];
        Pass(RenameAll(st.blocks[b := blk], x, root), next', drawn')
  }

  /** The second loop of runOn<Op>, over the collected ids xs. */
  function RewriteEach(draws: Draws, st: Pass, b: nat, op: Opcode, xs: seq<nat>): (r: Pass)
    requires b < |st.blocks| && Variants(op) > 0
    ensures |r.blocks| == |st.blocks|
    decreases |xs|
  {
    if xs == [] then st
    else RewriteEach(draws, RewriteOne(draws, st, b, op, xs[0]), b, op, xs[1..])
  }

  /** runOn<Op>: collect, then rewrite. */
  function RunOnOpcode(draws: Draws, st: Pass, b: nat, op: Opcode): (r: Pass)
    requires b < |st.blocks| && Variants(op) > 0
    ensures |r.blocks| == |st.blocks|
  {
    RewriteEach(draws, st, b, op, Targets(st.blocks[b], op))
  }

  /** RunOnBasicBlock: mul, sub, add, xor, or. */
  function RunOnBlock(draws: Draws, st: Pass, b: nat): (r: Pass)
    requires b < |st.blocks|
    ensures |r.blocks| == |st.blocks|
  {
    var s1 := RunOnOpcode(draws, st, b, Mul);
    var s2 := RunOnOpcode(draws, s1, b, Sub);
    var s3 := RunOnOpcode(draws, s2, b, Add);
    var s4 := RunOnOpcode(draws, s3, b, Xor);
    RunOnOpcode(draws, s4, b, Or)
  }

  /** ObfuscateFunction, from block b on. */
  function ObfuscateFrom(draws: Draws, st: Pass, b: nat): (r: Pass)
    ensures |r.blocks| == |st.blocks|
    decreases |st.blocks| - b
  {
    if b >= |st.blocks| then st else ObfuscateFrom(draws, RunOnBlock(draws, st, b), b + 1)
  }

  /** RunOnFunction: ObfuscateFunction, n times. */
  function Iterate(draws: Draws, st: Pass, n: int): (r: Pass)
    ensures |r.blocks| == |st.blocks|
    decreases if n < 0 then 0 else n
  {
    if n <= 0 then st else Iterate(draws, Round(draws, st, 3), n - 1)
  }

  /** One call of ObfuscateFunction, as RoundIsWalk states.  The walk over
      the blocks sits three calls of Round deep, so that a proof about many
      rounds works from RoundSound and RoundClears instead of unfolding the
      whole walk at every round it sees.  The countdown k models nothing of
      the source: it is a device for the solver. */
  function Round(draws: Draws, st: Pass, k: nat): (r: Pass)
    ensures |r.blocks| == |st.blocks|
  {
    if k == 0 then ObfuscateFrom(draws, st, 0) else Round(draws, st, k - 1)
  }

  lemma RoundIsWalk(draws: Draws, st: Pass)
    ensures Round(draws, st, 3) == ObfuscateFrom(draws, st, 0)
  {
    assert Round(draws, st, 1) == Round(draws, st, 0);
    assert Round(draws, st, 2) == Round(draws, st, 1);
  }

  // ---------------------------------------------------------------------
  // What every step keeps

  /** From st to st': the same blocks, and the flattened body refines. */
  ghost predicate Sound(m: Machine, st: Pass, st': Pass)
  {
    |st'.blocks| == |st.blocks| && Refines(m, Flatten(st.blocks), st.next, Flatten(st'.blocks), st'.next)
  }

  lemma SoundRefl(m: Machine, st: Pass)
    requires Inv(st)
    ensures Sound(m, st, st)
  {
  }

  lemma SoundTrans(m: Machine, s1: Pass, s2: Pass, s3: Pass)
    requires Sound(m, s1, s2) && Sound(m, s2, s3)
    ensures Sound(m, s1, s3)
  {
  }

  lemma {:induction false} FlattenSplit(blocks: seq<seq<Inst>>, b: nat)
    requires b < |blocks|
    ensures Flatten(blocks) == Flatten(blocks[..b]) + blocks[b] + Flatten(blocks[b + 1..])
    decreases b
  {
    if b == 0 {
      assert blocks[..0] == [];
    } else {
      FlattenSplit(blocks[1..], b - 1);
      assert blocks[1..][..b - 1] == blocks[1..b];
      assert blocks[1..][b - 1] == blocks[b];
      assert blocks[1..][b..] == blocks[b + 1..];
      assert blocks[..b][1..] == blocks[1..b];
      assert blocks[..b][0] == blocks[0];
    }
  }

  lemma {:induction false} FlattenRename(blocks: seq<seq<Inst>>, x: nat, to: Value)
    ensures Flatten(RenameAll(blocks, x, to)) == Rename(Flatten(blocks), x, to)
    decreases |blocks|
  {
    if blocks != [] {
      assert RenameAll(blocks, x, to)[1..] == RenameAll(blocks[1..], x, to);
      FlattenRename(blocks[1..], x, to);
      RenameAppend(blocks[0], Flatten(blocks[1..]), x, to);
    }
  }

  /** Instruction pos of block b is instruction |Flatten(blocks[..b])| + pos of the body. */
  lemma FlattenIndex(blocks: seq<seq<Inst>>, b: nat, pos: nat)
    requires b < |blocks| && pos < |blocks[b]|
    ensures var g := |Flatten(blocks[..b])| + pos;
      g < |Flatten(blocks)| && Flatten(blocks)[g] == blocks[b][pos]
  {
    FlattenSplit(blocks, b);
  }

  /** Inserting code in block b and renaming across all blocks is ReplaceAt on the body. */
  lemma RewriteIsReplaceAt(blocks: seq<seq<Inst>>, b: nat, pos: nat, e: Expr, next: nat)
    requires b < |blocks| && pos < |blocks[b]|
    ensures var g := |Flatten(blocks[..b])| + pos;
      var em := Emit(e, blocks[b][pos].width, next);
      var blk := blocks[b][..pos] + em.0 + blocks[b][pos..];
      && g < |Flatten(blocks)| && Flatten(blocks)[g] == blocks[b][pos]
      && Flatten(RenameAll(blocks[b := blk], blocks[b][pos].id, em.1)) == ReplaceAt(Flatten(blocks), g, e, next).0
  {
    var em := Emit(e, blocks[b][pos].width, next);
    var blk := blocks[b][..pos] + em.0 + blocks[b][pos..];
    var bs := blocks[b := blk];
    var s, g := Flatten(blocks), |Flatten(blocks[..b])| + pos;
    FlattenSplit(blocks, b);
    FlattenSplit(bs, b);
    assert bs[..b] == blocks[..b] && bs[b + 1..] == blocks[b + 1..];
    SpliceAt(Flatten(blocks[..b]), blocks[b], Flatten(blocks[b + 1..]), pos, em.0);
    assert s[g] == blocks[b][pos];
    assert Flatten(bs) == s[..g] + em.0 + s[g..];
    FlattenRename(bs, blocks[b][pos].id, em.1);
    assert ReplaceAt(s, g, e, next).0 == Rename(s[..g] + em.0 + s[g..], blocks[b][pos].id, em.1);
  }

  /** Inserting into the middle part of f1 + c + f2 inserts at |f1| + pos. */
  lemma SpliceAt(f1: seq<Inst>, c: seq<Inst>, f2: seq<Inst>, pos: nat, ins: seq<Inst>)
    requires pos < |c|
    ensures var s, g := f1 + c + f2, |f1| + pos;
      && g < |s| && s[g] == c[pos]
      && f1 + (c[..pos] + ins + c[pos..]) + f2 == s[..g] + ins + s[g..]
  {
    var s, g := f1 + c + f2, |f1| + pos;
    assert s[..g] == f1 + c[..pos];
    assert s[g..] == c[pos..] + f2;
  }

  /** Ids are unique within a well-formed body. */
  lemma WfDistinct(s: seq<Inst>, next: nat, j: nat, k: nat)
    requires Wf(s, next) && j < k < |s|
    ensures s[j].id != s[k].id
  {
    WfUses({}, s, next, k);
    IdsMember(s[..k], j);
  }

  lemma {:induction false} IdsMember(s: seq<Inst>, j: nat)
    requires j < |s|
    ensures s[j].id in Ids(s)
    decreases j
  {
    if j > 0 { IdsMember(s[1..], j - 1); }
  }

  lemma {:induction false} IdsHas(s: seq<Inst>, id: nat)
    requires id in Ids(s)
    ensures exists k :: 0 <= k < |s| && s[k].id == id
    decreases |s|
  {
    if s[0].id != id {
      IdsHas(s[1..], id);
      var k :| 0 <= k < |s[1..]| && s[1..][k].id == id;
      assert s[k + 1].id == id;
    }
  }

  /** In a well-formed function, the id found in block b is the instruction Has speaks of. */
  lemma FoundIsTarget(st: Pass, b: nat, x: nat, op: Opcode)
    requires Inv(st) && b < |st.blocks| && Has(st.blocks[b], x, op)
    ensures IndexOf(st.blocks[b], x).Some?
    ensures st.blocks[b][IndexOf(st.blocks[b], x).value].op == op
  {
    var k :| 0 <= k < |st.blocks[b]| && st.blocks[b][k].id == x && st.blocks[b][k].op == op;
    var pos := IndexOf(st.blocks[b], x).value;
    if pos != k {
      var base := |Flatten(st.blocks[..b])|;
      FlattenIndex(st.blocks, b, pos);
      FlattenIndex(st.blocks, b, k);
      if pos < k {
        WfDistinct(Flatten(st.blocks), st.next, base + pos, base + k);
      } else {
        WfDistinct(Flatten(st.blocks), st.next, base + k, base + pos);
      }
    }
  }

  /** One rewrite is sound; and when x is an instruction of block b with
      opcode op, afterwards nothing uses x. */
  lemma RewriteOneSound(m: Machine, draws: Draws, st: Pass, b: nat, op: Opcode, x: nat)
    requires Inv(st) && b < |st.blocks| && Variants(op) > 0
    ensures Sound(m, st, RewriteOne(draws, st, b, op, x))
    ensures Has(st.blocks[b], x, op) ==> NoUse(Flatten(RewriteOne(draws, st, b, op, x).blocks), x)
    ensures st.drawn <= RewriteOne(draws, st, b, op, x).drawn
  {
    if Has(st.blocks[b], x, op) {
      FoundIsTarget(st, b, x, op);
    }
    match IndexOf(st.blocks[b], x)
    case None =>
      SoundRefl(m, st);
    case Some(pos) =>
      var i := st.blocks[b][pos];
      ObfuscateCorrect(m, op, i, draws, st.drawn);
      match Obfuscate(op, i, draws, st.drawn)
      case None =>
        SoundRefl(m, st);
      case Some((e, drawn')) =>
        InsertSound(m, st, b, pos, e, drawn');
  }

  /** Inserting the code of e before instruction pos of block b and
      redirecting its uses is sound and leaves it unused. */
  lemma InsertSound(m: Machine, st: Pass, b: nat, pos: nat, e: Expr, drawn': nat)
    requires Inv(st) && b < |st.blocks| && pos < |st.blocks[b]|
    requires e.Node? && LeavesFrom(e, st.blocks[b][pos]) && Computes(m, e, st.blocks[b][pos])
    ensures var i := st.blocks[b][pos];
      var em := Emit(e, i.width, st.next);
      var st' := Pass(RenameAll(st.blocks[b := st.blocks[b][..pos] + em.0 + st.blocks[b][pos..]], i.id, em.1), em.2, drawn');
      Sound(m, st, st') && NoUse(Flatten(st'.blocks), i.id)
  {
    var g := |Flatten(st.blocks[..b])| + pos;
    InsertIsReplaceAt(st, b, pos, e, drawn');
    ReplaceAtRefines(m, Flatten(st.blocks), g, e, st.next);
  }

  /** The inserted pass, flattened, is ReplaceAt on the flattened body. */
  lemma InsertIsReplaceAt(st: Pass, b: nat, pos: nat, e: Expr, drawn': nat)
    requires b < |st.blocks| && pos < |st.blocks[b]|
    ensures var i := st.blocks[b][pos];
      var em := Emit(e, i.width, st.next);
      var st' := Pass(RenameAll(st.blocks[b := st.blocks[b][..pos] + em.0 + st.blocks[b][pos..]], i.id, em.1), em.2, drawn');
      var g := |Flatten(st.blocks[..b])| + pos;
      && g < |Flatten(st.blocks)| && Flatten(st.blocks)[g] == i
      && |st'.blocks| == |st.blocks|
      && (Flatten(st'.blocks), st'.next) == ReplaceAt(Flatten(st.blocks), g, e, st.next)
  {
    RewriteIsReplaceAt(st.blocks, b, pos, e, st.next);
  }

  /** Renaming and inserting keep every instruction's id and opcode. */
  lemma RewriteOneKeeps(draws: Draws, st: Pass, b: nat, op: Opcode, x: nat, c: nat, y: nat, o: Opcode)
    requires b < |st.blocks| && Variants(op) > 0
    requires c < |st.blocks| && Has(st.blocks[c], y, o)
    ensures Has(RewriteOne(draws, st, b, op, x).blocks[c], y, o)
  {
    var st' := RewriteOne(draws, st, b, op, x);
    var k :| 0 <= k < |st.blocks[c]| && st.blocks[c][k].id == y && st.blocks[c][k].op == o;
    match IndexOf(st.blocks[b], x)
    case None =>
    case Some(pos) =>
      var i := st.blocks[b][pos];
      match Obfuscate(op, i, draws, st.drawn)
      case None =>
      case Some((e, drawn')) =>
        var em := Emit(e, i.width, st.next);
        var blk := st.blocks[b][..pos] + em.0 + st.blocks[b][pos..];
        if c == b {
          var k' := if k < pos then k else k + |em.0|;
          assert blk[k'] == st.blocks[b][k];
          assert st'.blocks[c][k'] == RenameInst(blk[k'], x, em.1);
        } else {
          assert st'.blocks[c][k] == RenameInst(st.blocks[c][k], x, em.1);
        }
  }

  lemma {:induction false} RewriteEachSound(m: Machine, draws: Draws, st: Pass, b: nat, op: Opcode, xs: seq<nat>)
    requires Inv(st) && b < |st.blocks| && Variants(op) > 0
    ensures Sound(m, st, RewriteEach(draws, st, b, op, xs))
    ensures forall x :: x in xs && Has(st.blocks[b], x, op) ==> NoUse(Flatten(RewriteEach(draws, st, b, op, xs).blocks), x)
    decreases |xs|
  {
    if xs == [] {
      SoundRefl(m, st);
    } else {
      var s1 := RewriteOne(draws, st, b, op, xs[0]);
      RewriteOneSound(m, draws, st, b, op, xs[0]);
      RewriteEachSound(m, draws, s1, b, op, xs[1..]);
      var s2 := RewriteEach(draws, s1, b, op, xs[1..]);
      SoundTrans(m, st, s1, s2);
      forall x | x in xs && Has(st.blocks[b], x, op)
        ensures NoUse(Flatten(s2.blocks), x)
      {
        RewriteOneKeeps(draws, st, b, op, xs[0], b, x, op);
        if x == xs[0] {
          HasIds(st, b, x, op);
        } else {
          assert x in xs[1..];
        }
      }
    }
  }

  /** An instruction of block b is an instruction of the body. */
  lemma HasIds(st: Pass, b: nat, x: nat, op: Opcode)
    requires b < |st.blocks| && Has(st.blocks[b], x, op)
    ensures x in Ids(Flatten(st.blocks))
  {
    var k :| 0 <= k < |st.blocks[b]| && st.blocks[b][k].id == x && st.blocks[b][k].op == op;
    FlattenIndex(st.blocks, b, k);
    IdsMember(Flatten(st.blocks), |Flatten(st.blocks[..b])| + k);
  }

  lemma {:induction false} RewriteEachKeeps(draws: Draws, st: Pass, b: nat, op: Opcode, xs: seq<nat>, c: nat, y: nat, o: Opcode)
    requires b < |st.blocks| && Variants(op) > 0
    requires c < |st.blocks| && Has(st.blocks[c], y, o)
    ensures Has(RewriteEach(draws, st, b, op, xs).blocks[c], y, o)
    decreases |xs|
  {
    if xs != [] {
      RewriteOneKeeps(draws, st, b, op, xs[0], c, y, o);
      RewriteEachKeeps(draws, RewriteOne(draws, st, b, op, xs[0]), b, op, xs[1..], c, y, o);
    }
  }

  /** runOn<Op> is sound and leaves every op instruction present at entry without uses. */
  lemma RunOnOpcodeSound(m: Machine, draws: Draws, st: Pass, b: nat, op: Opcode)
    requires Inv(st) && b < |st.blocks| && Variants(op) > 0
    ensures Sound(m, st, RunOnOpcode(draws, st, b, op))
    ensures forall x :: Has(st.blocks[b], x, op) ==> NoUse(Flatten(RunOnOpcode(draws, st, b, op).blocks), x)
  {
    TargetsExact(st.blocks[b], op);
    RewriteEachSound(m, draws, st, b, op, Targets(st.blocks[b], op));
  }

  /** The five opcodes the pass rewrites. */
  predicate Rewritten(op: Opcode)
  {
    op == Mul || op == Sub || op == Add || op == Xor || op == Or
  }

  lemma RunOnOpcodeKeeps(draws: Draws, st: Pass, b: nat, op: Opcode, c: nat, y: nat, o: Opcode)
    requires b < |st.blocks| && Variants(op) > 0
    requires c < |st.blocks| && Has(st.blocks[c], y, o)
    ensures Has(RunOnOpcode(draws, st, b, op).blocks[c], y, o)
  {
    RewriteEachKeeps(draws, st, b, op, Targets(st.blocks[b], op), c, y, o);
  }

  /** Sound keeps the absence of uses of an instruction of the body. */
  lemma SoundNoUse(m: Machine, st: Pass, st': Pass, b: nat, x: nat, op: Opcode)
    requires Sound(m, st, st') && b < |st.blocks| && Has(st.blocks[b], x, op)
    requires NoUse(Flatten(st.blocks), x)
    ensures NoUse(Flatten(st'.blocks), x)
  {
    HasIds(st, b, x, op);
  }

  /** RunOnBasicBlock is sound; afterwards no instruction of the block that
      had one of the five opcodes at entry is used any more. */
  lemma RunOnBlockSound(m: Machine, draws: Draws, st: Pass, b: nat)
    requires Inv(st) && b < |st.blocks|
    ensures Sound(m, st, RunOnBlock(draws, st, b))
    ensures forall x, op :: Rewritten(op) && Has(st.blocks[b], x, op) ==>
      NoUse(Flatten(RunOnBlock(draws, st, b).blocks), x)
  {
    var s1 := RunOnOpcode(draws, st, b, Mul);
    var s2 := RunOnOpcode(draws, s1, b, Sub);
    var s3 := RunOnOpcode(draws, s2, b, Add);
    var s4 := RunOnOpcode(draws, s3, b, Xor);
    var s5 := RunOnOpcode(draws, s4, b, Or);
    RunOnOpcodeSound(m, draws, st, b, Mul);
    RunOnOpcodeSound(m, draws, s1, b, Sub);
    RunOnOpcodeSound(m, draws, s2, b, Add);
    RunOnOpcodeSound(m, draws, s3, b, Xor);
    RunOnOpcodeSound(m, draws, s4, b, Or);
    SoundTrans(m, st, s1, s2);
    SoundTrans(m, st, s2, s3);
    SoundTrans(m, st, s3, s4);
    SoundTrans(m, st, s4, s5);
    forall x, op | Rewritten(op) && Has(st.blocks[b], x, op)
      ensures NoUse(Flatten(s5.blocks), x)
    {
      RunOnOpcodeKeeps(draws, st, b, Mul, b, x, op);
      RunOnOpcodeKeeps(draws, s1, b, Sub, b, x, op);
      RunOnOpcodeKeeps(draws, s2, b, Add, b, x, op);
      RunOnOpcodeKeeps(draws, s3, b, Xor, b, x, op);
      if op == Mul {
        SoundNoUse(m, s1, s5, b, x, op) by { SoundTrans(m, s1, s2, s3); SoundTrans(m, s1, s3, s4); SoundTrans(m, s1, s4, s5); }
      } else if op == Sub {
        SoundNoUse(m, s2, s5, b, x, op) by { SoundTrans(m, s2, s3, s4); SoundTrans(m, s2, s4, s5); }
      } else if op == Add {
        SoundNoUse(m, s3, s5, b, x, op) by { SoundTrans(m, s3, s4, s5); }
      } else if op == Xor {
        SoundNoUse(m, s4, s5, b, x, op);
      }
    }
  }

  lemma RunOnBlockKeeps(draws: Draws, st: Pass, b: nat, c: nat, y: nat, o: Opcode)
    requires b < |st.blocks|
    requires c < |st.blocks| && Has(st.blocks[c], y, o)
    ensures Has(RunOnBlock(draws, st, b).blocks[c], y, o)
  {
    var s1 := RunOnOpcode(draws, st, b, Mul);
    var s2 := RunOnOpcode(draws, s1, b, Sub);
    var s3 := RunOnOpcode(draws, s2, b, Add);
    var s4 := RunOnOpcode(draws, s3, b, Xor);
    RunOnOpcodeKeeps(draws, st, b, Mul, c, y, o);
    RunOnOpcodeKeeps(draws, s1, b, Sub, c, y, o);
    RunOnOpcodeKeeps(draws, s2, b, Add, c, y, o);
    RunOnOpcodeKeeps(draws, s3, b, Xor, c, y, o);
    RunOnOpcodeKeeps(draws, s4, b, Or, c, y, o);
  }

  /** ObfuscateFunction is sound; afterwards no instruction that had one of
      the five opcodes at entry, in a block from b on, is used any more. */
  lemma {:induction false} ObfuscateFromSound(m: Machine, draws: Draws, st: Pass, b: nat)
    requires Inv(st)
    ensures Sound(m, st, ObfuscateFrom(draws, st, b))
    ensures forall c, x, op :: b <= c < |st.blocks| && Rewritten(op) && Has(st.blocks[c], x, op) ==>
      NoUse(Flatten(ObfuscateFrom(draws, st, b).blocks), x)
    decreases |st.blocks| - b
  {
    if b >= |st.blocks| {
      SoundRefl(m, st);
    } else {
      var s1 := RunOnBlock(draws, st, b);
      var s2 := ObfuscateFrom(draws, s1, b + 1);
      RunOnBlockSound(m, draws, st, b);
      ObfuscateFromSound(m, draws, s1, b + 1);
      SoundTrans(m, st, s1, s2);
      forall c, x, op | b <= c < |st.blocks| && Rewritten(op) && Has(st.blocks[c], x, op)
        ensures NoUse(Flatten(s2.blocks), x)
      {
        if c == b {
          SoundNoUse(m, s1, s2, b, x, op) by { RunOnBlockKeeps(draws, st, b, b, x, op); }
        } else {
          RunOnBlockKeeps(draws, st, b, c, x, op);
        }
      }
    }
  }

  /** RunOnFunction: n rounds are sound, and with n <= 0 nothing changes. */
  lemma {:induction false} IterateSound(m: Machine, draws: Draws, st: Pass, n: int)
    requires Inv(st)
    ensures Sound(m, st, Iterate(draws, st, n))
    ensures n <= 0 ==> Iterate(draws, st, n) == st
    decreases if n < 0 then 0 else n
  {
    if n <= 0 {
      SoundRefl(m, st);
    } else {
      var s1 := Round(draws, st, 3);
      RoundSound(m, draws, st);
      IterateSound(m, draws, s1, n - 1);
      SoundTrans(m, st, s1, Iterate(draws, s1, n - 1));
    }
  }

  /** RunOnFunction with n >= 1: no instruction that had one of the five
      opcodes at entry is used any more. */
  lemma IterateClears(m: Machine, draws: Draws, st: Pass, n: int)
    requires Inv(st) && n >= 1
    ensures forall c, x, op :: 0 <= c < |st.blocks| && Rewritten(op) && Has(st.blocks[c], x, op) ==>
      NoUse(Flatten(Iterate(draws, st, n).blocks), x)
  {
    var s1 := Round(draws, st, 3);
    RoundClears(m, draws, st, s1);
    IterateSound(m, draws, s1, n - 1);
    StaysClear(m, st, s1, Iterate(draws, s1, n - 1));
  }

  /** One round is sound. */
  lemma RoundSound(m: Machine, draws: Draws, st: Pass)
    requires Inv(st)
    ensures Sound(m, st, Round(draws, st, 3))
  {
    RoundIsWalk(draws, st);
    ObfuscateFromSound(m, draws, st, 0);
  }

  /** After one round, every instruction that had one of the five opcodes
      at entry is still in its block and no longer used. */
  lemma RoundClears(m: Machine, draws: Draws, st: Pass, s1: Pass)
    requires Inv(st) && s1 == Round(draws, st, 3)
    ensures Inv(s1) && |s1.blocks| == |st.blocks|
    ensures forall c, x, op {:trigger Has(st.blocks[c], x, op)} ::
      0 <= c < |st.blocks| && Rewritten(op) && Has(st.blocks[c], x, op) ==>
      Has(s1.blocks[c], x, op) && NoUse(Flatten(s1.blocks), x)
  {
    RoundIsWalk(draws, st);
    ObfuscateFromSound(m, draws, st, 0);
    forall c, x, op | 0 <= c < |st.blocks| && Rewritten(op) && Has(st.blocks[c], x, op)
      ensures Has(s1.blocks[c], x, op)
    {
      ObfuscateFromKeeps(draws, st, 0, c, x, op);
    }
  }

  /** Once the instructions of st with the five opcodes are unused in s1,
      a sound step from s1 keeps them unused. */
  lemma StaysClear(m: Machine, st: Pass, s1: Pass, s2: Pass)
    requires |s1.blocks| == |st.blocks| && Sound(m, s1, s2)
    requires forall c, x, op {:trigger Has(st.blocks[c], x, op)} ::
      0 <= c < |st.blocks| && Rewritten(op) && Has(st.blocks[c], x, op) ==>
      Has(s1.blocks[c], x, op) && NoUse(Flatten(s1.blocks), x)
    ensures forall c, x, op :: 0 <= c < |st.blocks| && Rewritten(op) && Has(st.blocks[c], x, op) ==>
      NoUse(Flatten(s2.blocks), x)
  {
    forall c, x, op | 0 <= c < |st.blocks| && Rewritten(op) && Has(st.blocks[c], x, op)
      ensures NoUse(Flatten(s2.blocks), x)
    {
      SoundNoUse(m, s1, s2, c, x, op);
    }
  }

  /** ObfuscateFunction from block b is RunOnBasicBlock on b, then the rest. */
  lemma ObfuscateFromStep(draws: Draws, st: Pass, b: nat)
    requires b < |st.blocks|
    ensures ObfuscateFrom(draws, st, b) == ObfuscateFrom(draws, RunOnBlock(draws, st, b), b + 1)
  {
  }

  lemma {:induction false} ObfuscateFromKeeps(draws: Draws, st: Pass, b: nat, c: nat, y: nat, o: Opcode)
    requires c < |st.blocks| && Has(st.blocks[c], y, o)
    ensures Has(ObfuscateFrom(draws, st, b).blocks[c], y, o)
    decreases |st.blocks| - b
  {
    if b < |st.blocks| {
      var s1 := RunOnBlock(draws, st, b);
      ObfuscateFromStep(draws, st, b);
      RunOnBlockKeeps(draws, st, b, c, y, o);
      ObfuscateFromKeeps(draws, s1, b + 1, c, y, o);
    }
  }

  /** A rewrite of an instruction of block b with opcode op takes one
      variant pick, plus one constant for the second Add callback. */
  lemma RewriteOneDraws(draws: Draws, st: Pass, b: nat, op: Opcode, x: nat)
    requires Inv(st) && b < |st.blocks| && Variants(op) > 0 && Has(st.blocks[b], x, op)
    ensures var d := RewriteOne(draws, st, b, op, x).drawn;
      st.drawn + 1 <= d <= st.drawn + 2 && (op != Add ==> d == st.drawn + 1)
  {
    FoundIsTarget(st, b, x, op);
    var pos := IndexOf(st.blocks[b], x).value;
    ObfuscateCorrect(Machine(k => 0, (c, a, b) => 0), op, st.blocks[b][pos], draws, st.drawn);
  }

  /** Every id collected at entry is rewritten exactly once: the second loop
      of runOn<Op> makes one variant pick per collected instruction, and none
      for the instructions the rewrites create. */
  lemma {:induction false} RewriteEachDraws(draws: Draws, st: Pass, b: nat, op: Opcode, xs: seq<nat>)
    requires Inv(st) && b < |st.blocks| && Variants(op) > 0
    requires forall x :: x in xs ==> Has(st.blocks[b], x, op)
    ensures var d := RewriteEach(draws, st, b, op, xs).drawn;
      st.drawn + |xs| <= d <= st.drawn + 2 * |xs| && (op != Add ==> d == st.drawn + |xs|)
    decreases |xs|
  {
    if xs != [] {
      var s1 := RewriteOne(draws, st, b, op, xs[0]);
      RewriteOneDraws(draws, st, b, op, xs[0]);
      RewriteOneSound(Machine(k => 0, (c, a, b) => 0), draws, st, b, op, xs[0]);
      forall x | x in xs[1..]
        ensures Has(s1.blocks[b], x, op)
      {
        RewriteOneKeeps(draws, st, b, op, xs[0], b, x, op);
      }
      RewriteEachDraws(draws, s1, b, op, xs[1..]);
    }
  }

  /** runOn<Op> makes one variant pick per instruction with opcode op present
      at entry (so none for those it creates). */
  lemma RunOnOpcodeDraws(draws: Draws, st: Pass, b: nat, op: Opcode)
    requires Inv(st) && b < |st.blocks| && Variants(op) > 0 && op != Add
    ensures RunOnOpcode(draws, st, b, op).drawn == st.drawn + |Targets(st.blocks[b], op)|
  {
    TargetsExact(st.blocks[b], op);
    RewriteEachDraws(draws, st, b, op, Targets(st.blocks[b], op));
  }

  lemma {:induction false} TargetsSnoc(s: seq<Inst>, i: Inst, op: Opcode)
    ensures Targets(s + [i], op) == Targets(s, op) + (if i.op == op then [i.id] else [])
    decreases |s|
  {
    if s != [] {
      assert (s + [i])[1..] == s[1..] + [i];
      TargetsSnoc(s[1..], i, op);
    }
  }

  // ---------------------------------------------------------------------
  // The pass as it runs

  /** The generator behind Random::IntRanged. */
  class Random {
    const draws: Draws
    var drawn: nat

    constructor (draws: Draws)
      ensures this.draws == draws && drawn == 0
    {
      this.draws := draws;
      drawn := 0;
    }

    /** A value in [lo, hi]; takes the next draw. */
    method IntRanged(lo: nat, hi: nat) returns (v: nat)
      requires lo <= hi
      modifies this
      ensures lo <= v <= hi
      ensures v == Pick(draws(old(drawn)), lo, hi) && drawn == old(drawn) + 1
    {
      v := Pick(draws(drawn), lo, hi);
      drawn := drawn + 1;
    }
  }

  /** An LLVM function: its blocks in layout order, and the next fresh id. */
  class IrFunction {
    var blocks: seq<seq<Inst>>
    var next: nat

    constructor (blocks: seq<seq<Inst>>, next: nat)
      ensures this.blocks == blocks && this.next == next
    {
      this.blocks := blocks;
      this.next := next;
    }
  }

  /** The pass state held by a function and a generator. */
  function State(f: IrFunction, rng: Random): Pass
    reads f, rng
  {
    Pass(f.blocks, f.next, rng.drawn)
  }

  /** Obfuscate<Op>: null for another opcode, else the picked callback applied to i. */
  method ObfuscateInst(op: Opcode, i: Inst, rng: Random) returns (r: Option<Expr>)
    requires Variants(op) > 0
    modifies rng
    ensures r.None? <==> Obfuscate(op, i, rng.draws, old(rng.drawn)).None?
    ensures r.None? ==> rng.drawn == old(rng.drawn)
    ensures r.Some? ==> Obfuscate(op, i, rng.draws, old(rng.drawn)) == Some((r.value, rng.drawn))
  {
    if i.op != op {
      return None;
    }
    var k := rng.IntRanged(0, Variants(op) - 1);
    var c := 0;
    if op == Add && k == 1 {
      c := rng.IntRanged(0, UINT64_MAX - 1);
    }
    return Some(Callback(k, i, c));
  }

  /** The first loop of runOn<Op>: the ids of the block's op instructions. */
  method CollectTargets(block: seq<Inst>, op: Opcode) returns (xs: seq<nat>)
    ensures xs == Targets(block, op)
  {
    xs := [];
    for k := 0 to |block|
      invariant xs == Targets(block[..k], op)
    {
      assert block[..k + 1] == block[..k] + [block[k]];
      TargetsSnoc(block[..k], block[k], op);
      if block[k].op == op {
        xs := xs + [block[k].id];
      }
    }
    assert block[..|block|] == block;
  }

  /** One step of the second loop of runOn<Op>: build the replacement before
      instruction x and redirect every use of x to it. */
  method ReplaceUses(f: IrFunction, rng: Random, b: nat, op: Opcode, x: nat)
    requires b < |f.blocks| && Variants(op) > 0
    modifies f, rng
    ensures State(f, rng) == RewriteOne(rng.draws, old(State(f, rng)), b, op, x)
  {
    var found := IndexOf(f.blocks[b], x);
    if found.None? {
      return;
    }
    var pos := found.value;
    var i := f.blocks[b][pos];
    var r := ObfuscateInst(op, i, rng);
    if r.None? {
      return;
    }
    var em := Emit(r.value, i.width, f.next);
    var root := em.1;
    var block := f.blocks[b][..pos] + em.0 + f.blocks[b][pos..];
    f.blocks := RenameAll(f.blocks[b := block], x, root);
    f.next := em.2;
  }

  /** runOn<Op>. */
  method RunOnOp(f: IrFunction, rng: Random, b: nat, op: Opcode)
    requires b < |f.blocks| && Variants(op) > 0
    modifies f, rng
    ensures State(f, rng) == RunOnOpcode(rng.draws, old(State(f, rng)), b, op)
  {
    ghost var st0 := State(f, rng);
    var xs := CollectTargets(f.blocks[b], op);
    for k := 0 to |xs|
      invariant |f.blocks| == |st0.blocks|
      invariant RewriteEach(rng.draws, State(f, rng), b, op, xs[k..]) == RunOnOpcode(rng.draws, st0, b, op)
    {
      assert xs[k..][1..] == xs[k + 1..];
      ReplaceUses(f, rng, b, op, xs[k]);
    }
  }

  method RunOnBasicBlock(f: IrFunction, rng: Random, b: nat)
    requires b < |f.blocks|
    modifies f, rng
    ensures State(f, rng) == RunOnBlock(rng.draws, old(State(f, rng)), b)
  {
    RunOnOp(f, rng, b, Mul);
    RunOnOp(f, rng, b, Sub);
    RunOnOp(f, rng, b, Add);
    RunOnOp(f, rng, b, Xor);
    RunOnOp(f, rng, b, Or);
  }

  method ObfuscateFunction(f: IrFunction, rng: Random)
    modifies f, rng
    ensures State(f, rng) == ObfuscateFrom(rng.draws, old(State(f, rng)), 0)
  {
    ghost var st0 := State(f, rng);
    var n := |f.blocks|;
    for b := 0 to n
      invariant |f.blocks| == n
      invariant ObfuscateFrom(rng.draws, State(f, rng), b) == ObfuscateFrom(rng.draws, st0, 0)
    {
      RunOnBasicBlock(f, rng, b);
    }
  }

  /** RunOnFunction, with the PassIterations option's value given. */
  method RunOnFunction(f: IrFunction, rng: Random, iterations: int)
    modifies f, rng
    ensures State(f, rng) == Iterate(rng.draws, old(State(f, rng)), iterations)
  {
    ghost var st0 := State(f, rng);
    var i := 0;
    while i < iterations
      invariant 0 <= i && (iterations >= 0 ==> i <= iterations)
      invariant Iterate(rng.draws, State(f, rng), iterations - i) == Iterate(rng.draws, st0, iterations)
    {
      ghost var cur := State(f, rng);
      assert Iterate(rng.draws, cur, iterations - i) == Iterate(rng.draws, Round(rng.draws, cur, 3), iterations - i - 1);
      RoundIsWalk(rng.draws, cur);
      ObfuscateFunction(f, rng);
      i := i + 1;
    }
    assert iterations - i <= 0;
  }

  /** RegisterFromAnnotation: register this pass on f with PassIterations
      taken from the annotation's next argument, 1 when it has none; that
      argument is consumed. */
  method RegisterFromAnnotation(f: PassMetadata.FunctionId, args: PassMetadata.AnnotationArgs,
                                meta: PassMetadata.Metadata, codeName: string)
    modifies args, meta
    ensures var n := if old(args.rest) == [] then 1 else old(args.rest)[0];
      meta.Of(f) == old(meta.Of(f)) + [PassMetadata.Entry(codeName, [("PassIterations", n)])]
    ensures forall g :: g != f ==> meta.Of(g) == old(meta.Of(g))
    ensures args.rest == if old(args.rest) == [] then [] else old(args.rest)[1..]
  {
    var n := args.NextOrDefault(1);
    meta.AddPass(f, codeName, [("PassIterations", n)]);
  }
}
