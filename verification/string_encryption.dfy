/**
 * StringEncryption::ObfuscateGlobalArrayStrings: which global strings of a
 * module are encrypted, and what the module looks like afterwards.
 *
 * A module is its list of globals (a global is named by its position), the
 * number of its functions, the decrypting constructors it runs at start-up
 * and the decoded stack copies made inside its functions.  Every global
 * that holds an i8 array is offered to the configuration's OnString
 * callback, whose answer (undefined, or an integer) is an input here, as are
 * the seeds Random::UInt32 returns.  A global then goes
 *   - on the stack path when its text starts with "/stack:" or the answer
 *     is 1: a private encrypted copy is made, every instruction that used it
 *     gets a buffer of its own in its function, decoded there, and the
 *     global is erased;
 *   - on the table path when the answer is 2: its initializer is replaced by
 *     its encryption, and a constructor decodes every table string in place
 *     through a pointer table and a length table;
 *   - nowhere otherwise.
 *
 * The bytes a constructor or a stack buffer leaves in memory are stated
 * with the decoder of module StringCipher, so the round trips below are
 * about the module the pass produces.
 */
module StringEncryption {
  import opened Optional
  import opened StringCipher

  /** Functions of the module, by position. */
  type FunctionId = nat

  /** Something that refers to a global: an instruction (placed in a
      function, or not yet), a constant expression over the global with the
      users of that expression, or any other constant (the initializer of
      another global, say). */
  datatype User =
    | Inst(func: Option<FunctionId>)
    | ConstExpr(gep: bool, users: seq<User>)
    | OtherConstant

  /** Initializers: none, an i8 array (a C string with its terminator), the
      two tables the pass creates, or anything else. */
  datatype Init =
    | NoInit
    | StringArray(bytes: seq<bv8>)
    | PointerArray(targets: seq<nat>)
    | LengthArray(lens: seq<nat>)
    | OtherInit

  datatype Global = Global(name: string, section: Option<string>, init: Init, isConstant: bool, uses: seq<User>)

  /** __decrypt_ctor: the function it is, the pointer and length tables it
      walks, the master seed baked into it and the number of strings. */
  datatype DecryptCtor = DecryptCtor(func: FunctionId, ptrTable: nat, lenTable: nat, master: bv32, count: nat)

  /** A decoded stack copy: the function holding it, the global it stands
      for, the encrypted private copy it is filled from, the seed and the
      number of bytes the emitted decoder runs over. */
  datatype StackBuffer = StackBuffer(func: FunctionId, of: nat, copy: nat, seed: bv32, size: nat)

  predicate StartsWith<T(==)>(s: seq<T>, p: seq<T>)
  {
    |p| <= |s| && s[..|p|] == p
  }

  /** "/stack:" */
  const StackPrefix: seq<bv8> := [0x2F, 0x73, 0x74, 0x61, 0x63, 0x6B, 0x3A]

  /** ConstantInt::get(i32, n): n reduced modulo 2^32. */
  function Len32(n: nat): (r: nat)
    ensures r < 0x1_0000_0000
    ensures n < 0x1_0000_0000 ==> r == n
  {
    if n < 0x1_0000_0000 then n else Len32(n - 0x1_0000_0000)
  }

  // ---------------------------------------------------------------------
  // Classification

  /** Globals the pass never looks at: no i8-array initializer, an llvm.
      name, or a section starting with debug or llvm. */
  predicate Skipped(g: Global)
  {
    !g.init.StringArray?
    || StartsWith(g.name, "llvm.")
    || (g.section.Some? && (StartsWith(g.section.value, "debug") || StartsWith(g.section.value, "llvm")))
  }

  /** The option OnString gave: 0 when it returned undefined. */
  function OptionOf(answer: Option<int>): int
  {
    if answer.None? then 0 else answer.value
  }

  predicate InFunction(u: User)
  {
    u.Inst? && u.func.Some?
  }

  /** A use the stack path can serve: an instruction inside a function, or a
      constant expression all of whose users are such instructions. */
  predicate UseValid(u: User)
  {
    match u
    case Inst(f) => f.Some?
    case ConstExpr(_, users) => forall v :: v in users ==> InFunction(v)
    case OtherConstant => false
  }

  predicate UsesValid(uses: seq<User>)
  {
    forall u :: u in uses ==> UseValid(u)
  }

  datatype Route =
    | Skip              // not a candidate at all
    | Stack(text: seq<bv8>)  // stack path, with the text that is stored
    | Refused           // wanted on the stack, but used outside a function
    | Table             // table path
    | Leave             // OnString chose neither

  /** The decision made for one global, given OnString's answer for it. */
  function Classify(g: Global, answer: Option<int>): (r: Route)
    ensures r.Skip? <==> Skipped(g)
    ensures r.Stack? || r.Refused? <==>
              !Skipped(g) && (StartsWith(g.init.bytes, StackPrefix) || OptionOf(answer) == 1)
    ensures r.Table? <==>
              !Skipped(g) && !StartsWith(g.init.bytes, StackPrefix) && OptionOf(answer) == 2
    ensures r.Stack? ==> UsesValid(g.uses)
    ensures r.Refused? ==> !UsesValid(g.uses)
    ensures r.Stack? && StartsWith(g.init.bytes, StackPrefix) ==> g.init.bytes == StackPrefix + r.text
    ensures r.Stack? && !StartsWith(g.init.bytes, StackPrefix) ==> r.text == g.init.bytes
  {
    if Skipped(g) then Skip
    else
      var raw := g.init.bytes;
      var prefixed := StartsWith(raw, StackPrefix);
      var option := OptionOf(answer);
      if prefixed || option == 1 then
        if UsesValid(g.uses) then
          Stack(if prefixed then raw[|StackPrefix|..] else raw)
        else
          Refused
      else if option == 2 then Table
      else Leave
  }

  /** The inner loop of the use check: every user of a constant expression
      is an instruction inside a function. */
  method ConstUsersInFunctions(users: seq<User>) returns (ok: bool)
    ensures ok <==> forall v :: v in users ==> InFunction(v)
  {
    ok := true;
    for i := 0 to |users|
      invariant ok <==> forall k :: 0 <= k < i ==> InFunction(users[k])
    {
      match users[i]
      case Inst(f) =>
        if f.None? {
          assert users[i] in users;
          ok := false;
          return;
        }
      case _ =>
        assert users[i] in users;
        ok := false;
        return;
    }
  }

  /** The use check of the stack path: it stops at the first use that is
      neither an instruction in a function nor a constant expression whose
      users all are. */
  method CheckUses(uses: seq<User>) returns (valid: bool)
    ensures valid <==> UsesValid(uses)
  {
    valid := true;
    for i := 0 to |uses|
      invariant valid <==> forall k :: 0 <= k < i ==> UseValid(uses[k])
    {
      match uses[i]
      case ConstExpr(_, users) =>
        var ok := ConstUsersInFunctions(users);
        if !ok {
          assert uses[i] in uses;
          valid := false;
          return;
        }
      case Inst(f) =>
        if f.None? {
          assert uses[i] in uses;
          valid := false;
          return;
        }
      case OtherConstant =>
        assert uses[i] in uses;
        valid := false;
        return;
    }
  }

  predicate Increasing(s: seq<nat>)
  {
    forall a, b :: 0 <= a < b < |s| ==> s[a] < s[b]
  }

  lemma IncreasingSnoc(s: seq<nat>, x: nat)
    requires Increasing(s) && forall y :: y in s ==> y < x
    ensures Increasing(s + [x])
  {
    forall a, b | 0 <= a < b < |s| + 1
      ensures (s + [x])[a] < (s + [x])[b]
    {
      assert s[a] in s;
    }
  }

  /** The globals of the stack list, in order. */
  function StackGlobals(stackList: seq<(nat, seq<bv8>)>): (r: seq<nat>)
    ensures |r| == |stackList|
    ensures forall k :: 0 <= k < |r| ==> r[k] == stackList[k].0
  {
    seq(|stackList|, k requires 0 <= k < |stackList| => stackList[k].0)
  }

  /** The classification loop: it walks the globals in module order and
      fills gv_list, raw_strings, ptr_list and len_list with the table path
      globals, and stack_list with the stack path globals and the text each
      keeps. */
  method CollectTargets(globals: seq<Global>, answers: seq<Option<int>>)
    returns (gvList: seq<nat>, rawStrings: seq<seq<bv8>>, ptrList: seq<nat>, lenList: seq<nat>,
             stackList: seq<(nat, seq<bv8>)>)
    requires |answers| == |globals|
    ensures |rawStrings| == |gvList| && |ptrList| == |gvList| && |lenList| == |gvList|
    ensures Increasing(gvList) && Increasing(StackGlobals(stackList))
    ensures forall i :: i in gvList <==> 0 <= i < |globals| && Classify(globals[i], answers[i]).Table?
    ensures forall k :: 0 <= k < |gvList| ==>
              gvList[k] < |globals| && globals[gvList[k]].init.StringArray?
              && rawStrings[k] == globals[gvList[k]].init.bytes
              && ptrList[k] == gvList[k]
              && lenList[k] == Len32(|rawStrings[k]|)
    ensures forall i, t :: (i, t) in stackList <==> 0 <= i < |globals| && Classify(globals[i], answers[i]) == Stack(t)
  {
    gvList, rawStrings, ptrList, lenList, stackList := [], [], [], [], [];
    for i := 0 to |globals|
      invariant |rawStrings| == |gvList| && |ptrList| == |gvList| && |lenList| == |gvList|
      invariant Increasing(gvList) && Increasing(StackGlobals(stackList))
      invariant forall x :: x in gvList ==> x < i
      invariant forall e :: e in stackList ==> e.0 < i
      invariant forall x :: x in gvList <==> 0 <= x < i && Classify(globals[x], answers[x]).Table?
      invariant forall k :: 0 <= k < |gvList| ==>
                  gvList[k] < |globals| && globals[gvList[k]].init.StringArray?
                  && rawStrings[k] == globals[gvList[k]].init.bytes
                  && ptrList[k] == gvList[k]
                  && lenList[k] == Len32(|rawStrings[k]|)
      invariant forall x, t :: (x, t) in stackList <==> 0 <= x < i && Classify(globals[x], answers[x]) == Stack(t)
    {
      var route := ClassifyOne(globals[i], answers[i]);
      match route
      case Stack(text) =>
        assert StackGlobals(stackList + [(i, text)]) == StackGlobals(stackList) + [i];
        IncreasingSnoc(StackGlobals(stackList), i);
        stackList := stackList + [(i, text)];
      case Table =>
        var raw := globals[i].init.bytes;
        IncreasingSnoc(gvList, i);
        gvList := gvList + [i];
        rawStrings := rawStrings + [raw];
        ptrList := ptrList + [i];
        lenList := lenList + [Len32(|raw|)];
      case _ =>
    }
  }

  /** The body of the classification loop for one global: the skip rules,
      the option, the prefix test and, on the way to the stack, the use check. */
  method ClassifyOne(g: Global, answer: Option<int>) returns (route: Route)
    ensures route == Classify(g, answer)
  {
    if Skipped(g) {
      return Skip;
    }
    var raw := g.init.bytes;
    var option := OptionOf(answer);
    var prefixed := StartsWith(raw, StackPrefix);
    if prefixed || option == 1 {
      var valid := CheckUses(g.uses);
      if !valid {
        return Refused;
      }
      route := Stack(if prefixed then raw[|StackPrefix|..] else raw);
    } else if option == 2 {
      route := Table;
    } else {
      route := Leave;
    }
  }

  /** No global is on both paths. */
  lemma StackApartFromTable(globals: seq<Global>, answers: seq<Option<int>>, tableList: seq<nat>, stackList: seq<(nat, seq<bv8>)>)
    requires |answers| == |globals|
    requires forall i :: i in tableList ==> 0 <= i < |globals| && Classify(globals[i], answers[i]).Table?
    requires forall i, t :: (i, t) in stackList ==> 0 <= i < |globals| && Classify(globals[i], answers[i]) == Stack(t)
    ensures forall i :: i in tableList ==> i !in StackGlobals(stackList)
  {
    forall k | 0 <= k < |stackList|
      ensures stackList[k].0 !in tableList
    {
      assert (stackList[k].0, stackList[k].1) in stackList;
    }
  }

  // ---------------------------------------------------------------------
  // Where the uses of a stack-path global go

  /** What rewriting the uses of one global leaves: the functions that get a
      decoded buffer (one per instruction served), and the users still
      referring to the global. */
  datatype Rewrite = Rewrite(buffers: seq<FunctionId>, left: seq<User>)

  function Join(a: Rewrite, b: Rewrite): Rewrite
  {
    Rewrite(a.buffers + b.buffers, a.left + b.left)
  }

  /** The functions of the users that are instructions placed in a function. */
  function FunctionsOf(users: seq<User>): seq<FunctionId>
  {
    if users == [] then []
    else FunctionsOf(users[..|users| - 1])
         + (if InFunction(users[|users| - 1]) then [users[|users| - 1].func.value] else [])
  }

  /** The users of a constant expression with the first instruction among
      them taken out: the one the use loop gets to rebuild. */
  function WithoutFirstInst(users: seq<User>): (r: seq<User>)
    ensures (exists v :: v in users && v.Inst?) ==> |r| == |users| - 1
    ensures (forall v :: v in users ==> !v.Inst?) ==> r == users
    ensures forall v :: v in r ==> v in users
  {
    if users == [] then []
    else if users[0].Inst? then users[1..]
    else [users[0]] + WithoutFirstInst(users[1..])
  }

  /** The instruction ce->getAsInstruction() makes next to the first
      instruction user of a constant expression, still over the global; none
      when no user is an instruction. */
  function FirstGepCopy(users: seq<User>): (r: seq<User>)
    ensures |r| <= 1
    ensures r != [] <==> exists v :: v in users && v.Inst?
    ensures forall c :: c in r ==> c.Inst? && c in users
  {
    if users == [] then []
    else if users[0].Inst? then [Inst(users[0].func)]
    else FirstGepCopy(users[1..])
  }

  /** One use, as the stack path's use loop treats it: an instruction in a
      function gets a buffer; a GEP constant expression has its first
      instruction user rebuilt as an instruction over the global (the
      replaceUsesOfWith call moves the use being iterated onto the new
      instruction, whose use list is empty, so the walk over the expression's
      users stops there), and is otherwise skipped, like every other constant
      expression; anything else is skipped. */
  function RewriteOneAsWritten(u: User): Rewrite
  {
    match u
    case Inst(f) => if f.Some? then Rewrite([f.value], []) else Rewrite([], [u])
    case ConstExpr(gep, users) =>
      if gep then Rewrite([], [ConstExpr(gep, WithoutFirstInst(users))] + FirstGepCopy(users))
      else Rewrite([], [u])
    case OtherConstant => Rewrite([], [u])
  }

  function RewriteAsWritten(uses: seq<User>): Rewrite
  {
    if uses == [] then Rewrite([], [])
    else Join(RewriteAsWritten(uses[..|uses| - 1]), RewriteOneAsWritten(uses[|uses| - 1]))
  }

  /** As written, a stack-path global keeps a user exactly when one of its
      uses is a constant expression: that user then refers to a global the
      pass erases. */
  lemma {:induction false} AsWrittenLeavesConstExprs(uses: seq<User>)
    requires UsesValid(uses)
    ensures RewriteAsWritten(uses).left == [] <==> forall u :: u in uses ==> u.Inst?
  {
    if uses != [] {
      var init, last := uses[..|uses| - 1], uses[|uses| - 1];
      assert forall u :: u in init ==> u in uses;
      AsWrittenLeavesConstExprs(init);
      assert uses == init + [last];
      assert last in uses;
      assert RewriteOneAsWritten(last).left == [] <==> last.Inst?;
      assert (forall u :: u in uses ==> u.Inst?) <==> (forall u :: u in init ==> u.Inst?) && last.Inst?;
    }
  }

  /** A string reached through a constant GEP inside function 0: it passes
      the use check, yet the rewrite as written leaves the expression and a
      GEP instruction over the erased global, while the corrected rewrite
      leaves nothing behind. */
  lemma ConstantGepLeftBehind()
    ensures UsesValid([ConstExpr(true, [Inst(Some(0))])])
    ensures RewriteAsWritten([ConstExpr(true, [Inst(Some(0))])]).left == [ConstExpr(true, []), Inst(Some(0))]
    ensures RewriteUses([ConstExpr(true, [Inst(Some(0))])]) == Rewrite([0], [])
  {
    var users := [Inst(Some(0))];
    assert users[..0] == [];
    assert FunctionsOf(users) == [0];
    var uses := [ConstExpr(true, users)];
    assert uses[..0] == [];
  }

  /** A constant GEP with two instruction users: as written only the first is
      rebuilt over the global, and the expression keeps the second. */
  lemma SecondGepUserKept()
    ensures UsesValid([ConstExpr(true, [Inst(Some(0)), Inst(Some(1))])])
    ensures RewriteAsWritten([ConstExpr(true, [Inst(Some(0)), Inst(Some(1))])]).left
            == [ConstExpr(true, [Inst(Some(1))]), Inst(Some(0))]
  {
    var users := [Inst(Some(0)), Inst(Some(1))];
    assert users[1..] == [Inst(Some(1))];
    var uses := [ConstExpr(true, users)];
    assert uses[..0] == [];
  }

  /** One use, rewritten so that nothing refers to the global afterwards:
      every instruction that reaches the global, directly or through a
      constant expression, gets a decoded buffer of its own. */
  function RewriteOne(u: User): Rewrite
  {
    match u
    case Inst(f) => if f.Some? then Rewrite([f.value], []) else Rewrite([], [u])
    case ConstExpr(_, users) =>
      Rewrite(FunctionsOf(users), if forall v :: v in users ==> InFunction(v) then [] else [u])
    case OtherConstant => Rewrite([], [u])
  }

  function RewriteUses(uses: seq<User>): Rewrite
  {
    if uses == [] then Rewrite([], [])
    else Join(RewriteUses(uses[..|uses| - 1]), RewriteOne(uses[|uses| - 1]))
  }

  /** The corrected rewrite leaves no user of a global whose uses passed the
      check, so erasing the global leaves nothing dangling. */
  lemma {:induction false} RewriteLeavesNothing(uses: seq<User>)
    requires UsesValid(uses)
    ensures RewriteUses(uses).left == []
  {
    if uses != [] {
      var init := uses[..|uses| - 1];
      assert forall u :: u in init ==> u in uses;
      RewriteLeavesNothing(init);
      assert uses[|uses| - 1] in uses;
    }
  }

  /** Every buffer is placed in a function that used the global. */
  lemma {:induction false} BuffersInUsingFunctions(uses: seq<User>)
    ensures forall f :: f in RewriteUses(uses).buffers ==>
              exists u :: u in uses && (u == Inst(Some(f)) || (u.ConstExpr? && Inst(Some(f)) in u.users))
  {
    if uses != [] {
      var init, last := uses[..|uses| - 1], uses[|uses| - 1];
      BuffersInUsingFunctions(init);
      assert forall u :: u in init ==> u in uses;
      assert last in uses;
      if last.ConstExpr? {
        FunctionsOfAreUsers(last.users);
      }
    }
  }

  lemma {:induction false} FunctionsOfAreUsers(users: seq<User>)
    ensures forall f :: f in FunctionsOf(users) ==> Inst(Some(f)) in users
  {
    if users != [] {
      var init := users[..|users| - 1];
      FunctionsOfAreUsers(init);
      assert forall v :: v in init ==> v in users;
      assert users[|users| - 1] in users;
    }
  }

  /** The use loop of the stack path, one use after the other. */
  method RedirectUses(uses: seq<User>) returns (buffers: seq<FunctionId>, left: seq<User>)
    ensures Rewrite(buffers, left) == RewriteUses(uses)
  {
    buffers, left := [], [];
    for i := 0 to |uses|
      invariant Rewrite(buffers, left) == RewriteUses(uses[..i])
    {
      assert uses[..i + 1][..i] == uses[..i];
      var one := RewriteOne(uses[i]);
      buffers := buffers + one.buffers;
      left := left + one.left;
    }
    assert uses[..|uses|] == uses;
  }

  lemma {:induction false} FunctionsOfComplete(users: seq<User>)
    ensures forall v :: v in users && InFunction(v) ==> v.func.value in FunctionsOf(users)
  {
    if users != [] {
      var init := users[..|users| - 1];
      FunctionsOfComplete(init);
      assert users == init + [users[|users| - 1]];
    }
  }

  /** The corrected rewrite serves every instruction in a function that
      reaches the global, directly or through a constant expression: its
      function gets a buffer. */
  lemma {:induction false} EveryUserServed(uses: seq<User>)
    ensures forall u :: u in uses && InFunction(u) ==> u.func.value in RewriteUses(uses).buffers
    ensures forall u, v :: u in uses && u.ConstExpr? && v in u.users && InFunction(v) ==>
              v.func.value in RewriteUses(uses).buffers
  {
    if uses != [] {
      var init, last := uses[..|uses| - 1], uses[|uses| - 1];
      EveryUserServed(init);
      assert uses == init + [last];
      if last.ConstExpr? {
        FunctionsOfComplete(last.users);
      }
    }
  }

  /** (function, global) for each buffer made for global gi. */
  function Sites(fs: seq<FunctionId>, gi: nat): (r: seq<(FunctionId, nat)>)
    ensures |r| == |fs|
    ensures forall j :: 0 <= j < |fs| ==> r[j] == (fs[j], gi)
  {
    if fs == [] then [] else Sites(fs[..|fs| - 1], gi) + [(fs[|fs| - 1], gi)]
  }

  /** The buffers the stack path makes, in order: for each global of the
      stack list in list order, one per instruction use its corrected
      rewrite serves, in use order, as (function, global): a function that
      uses the string k times gets k buffers. */
  function PlannedBuffers(globals: seq<Global>, stackList: seq<(nat, seq<bv8>)>, n: nat): seq<(FunctionId, nat)>
    requires n <= |stackList|
  {
    if n == 0 then []
    else
      var gi := stackList[n - 1].0;
      PlannedBuffers(globals, stackList, n - 1)
      + (if gi < |globals| then Sites(RewriteUses(globals[gi].uses).buffers, gi) else [])
  }

  /** Function f used global gi: one of its instructions is a user of gi,
      directly or through a constant expression. */
  ghost predicate UsedIn(globals: seq<Global>, gi: nat, f: FunctionId)
  {
    gi < |globals|
    && exists u :: u in globals[gi].uses && (u == Inst(Some(f)) || (u.ConstExpr? && Inst(Some(f)) in u.users))
  }

  /** Global gi is among the first n entries of the stack list. */
  ghost predicate Listed(stackList: seq<(nat, seq<bv8>)>, n: nat, gi: nat)
  {
    exists k :: 0 <= k < n && k < |stackList| && stackList[k].0 == gi
  }

  /** Each planned buffer is for a global of the stack list and lies in a
      function that used that global. */
  lemma {:induction false} PlannedFromUsers(globals: seq<Global>, stackList: seq<(nat, seq<bv8>)>, n: nat)
    requires n <= |stackList|
    ensures forall p :: p in PlannedBuffers(globals, stackList, n) ==> Listed(stackList, n, p.1) && UsedIn(globals, p.1, p.0)
  {
    if n != 0 {
      PlannedFromUsers(globals, stackList, n - 1);
      var gi := stackList[n - 1].0;
      var before := PlannedBuffers(globals, stackList, n - 1);
      var extra: seq<(FunctionId, nat)> := if gi < |globals| then Sites(RewriteUses(globals[gi].uses).buffers, gi) else [];
      assert PlannedBuffers(globals, stackList, n) == before + extra;
      forall p | p in before + extra
        ensures Listed(stackList, n, p.1) && UsedIn(globals, p.1, p.0)
      {
        if p in before {
          ListedGrows(stackList, n - 1, n, p.1);
        } else {
          assert p in extra && gi < |globals|;
          SiteUsedIn(globals, gi, p);
          ListedLast(stackList, n);
        }
      }
    }
  }

  lemma ListedGrows(stackList: seq<(nat, seq<bv8>)>, m: nat, n: nat, gi: nat)
    requires m <= n && Listed(stackList, m, gi)
    ensures Listed(stackList, n, gi)
  {
  }

  lemma ListedLast(stackList: seq<(nat, seq<bv8>)>, n: nat)
    requires 0 < n <= |stackList|
    ensures Listed(stackList, n, stackList[n - 1].0)
  {
  }

  /** A site of global gi lies in a function that used gi. */
  lemma SiteUsedIn(globals: seq<Global>, gi: nat, p: (FunctionId, nat))
    requires gi < |globals| && p in Sites(RewriteUses(globals[gi].uses).buffers, gi)
    ensures p.1 == gi && UsedIn(globals, gi, p.0)
  {
    var fs := RewriteUses(globals[gi].uses).buffers;
    BuffersInUsingFunctions(globals[gi].uses);
    var j :| 0 <= j < |Sites(fs, gi)| && Sites(fs, gi)[j] == p;
    assert fs[j] in fs;
  }

  /** Planned buffers depend only on the uses of the stack list's globals. */
  lemma {:induction false} PlannedFrame(g0: seq<Global>, g1: seq<Global>, stackList: seq<(nat, seq<bv8>)>, n: nat)
    requires n <= |stackList|
    requires forall k :: 0 <= k < n ==>
               stackList[k].0 < |g0| && stackList[k].0 < |g1| && g1[stackList[k].0].uses == g0[stackList[k].0].uses
    ensures PlannedBuffers(g1, stackList, n) == PlannedBuffers(g0, stackList, n)
  {
    if n != 0 {
      PlannedFrame(g0, g1, stackList, n - 1);
      PlannedLast(g0, g1, stackList, n);
    }
  }

  lemma PlannedLast(g0: seq<Global>, g1: seq<Global>, stackList: seq<(nat, seq<bv8>)>, n: nat)
    requires 0 < n <= |stackList|
    requires stackList[n - 1].0 < |g0| && stackList[n - 1].0 < |g1|
    requires g1[stackList[n - 1].0].uses == g0[stackList[n - 1].0].uses
    requires PlannedBuffers(g1, stackList, n - 1) == PlannedBuffers(g0, stackList, n - 1)
    ensures PlannedBuffers(g1, stackList, n) == PlannedBuffers(g0, stackList, n)
  {
    var gi := stackList[n - 1].0;
    AppendSame(PlannedBuffers(g1, stackList, n - 1), PlannedBuffers(g0, stackList, n - 1), Sites(RewriteUses(g0[gi].uses).buffers, gi));
  }

  lemma AppendSame<T>(a: seq<T>, b: seq<T>, x: seq<T>)
    requires a == b
    ensures a + x == b + x
  {
  }

  // ---------------------------------------------------------------------
  // What the module holds at run time

  /** Bytes that the constructor c leaves in table entry k: the bytes of the
      global the k-th pointer designates, decoded in place with seed
      master ^ k over the k-th length.  None when the tables do not describe
      such a global. */
  function TableImage(globals: seq<Global>, c: DecryptCtor, k: nat): Option<seq<bv8>>
  {
    if c.ptrTable < |globals| && c.lenTable < |globals|
       && globals[c.ptrTable].init.PointerArray? && globals[c.lenTable].init.LengthArray?
       && k < c.count
       && k < |globals[c.ptrTable].init.targets| && k < |globals[c.lenTable].init.lens|
    then
      var target := globals[c.ptrTable].init.targets[k];
      var len := globals[c.lenTable].init.lens[k];
      if target < |globals| && globals[target].init.StringArray? && len <= |globals[target].init.bytes|
      then Some(Decoded(globals[target].init.bytes, Seed(c.master, k), len))
      else None
    else None
  }

  /** Bytes a stack buffer holds once the emitted code has run: the private
      copy, copied in and decoded with the buffer's seed over its size. */
  function BufferImage(globals: seq<Global>, b: StackBuffer): Option<seq<bv8>>
  {
    if b.copy < |globals| && globals[b.copy].init.StringArray? && b.size <= |globals[b.copy].init.bytes|
    then Some(Decoded(globals[b.copy].init.bytes, b.seed, b.size))
    else None
  }

  /** The second list of globals keeps every initializer of the first. */
  predicate InitsKept(g0: seq<Global>, g1: seq<Global>)
  {
    |g0| <= |g1| && forall i :: 0 <= i < |g0| ==> g1[i].init == g0[i].init
  }

  lemma ImagesKept(g0: seq<Global>, g1: seq<Global>)
    requires InitsKept(g0, g1)
    ensures forall c, k :: TableImage(g0, c, k).Some? ==> TableImage(g1, c, k) == TableImage(g0, c, k)
    ensures forall b :: BufferImage(g0, b).Some? ==> BufferImage(g1, b) == BufferImage(g0, b)
  {
  }

  /** A whole string, encrypted and then decoded with the same seed. */
  lemma DecodeCipher(raw: seq<bv8>, seed: bv32)
    ensures Decoded(Cipher(raw, seed), seed, |raw|) == raw
  {
    var e := Cipher(raw, seed);
    assert e[..|e|] == e;
    CipherInvolution(raw, seed);
  }

  /** Entry k of a table whose string holds its cipher under master ^ k and
      whose length is the string's length: the constructor restores it. */
  lemma TableEntryRestored(globals: seq<Global>, c: DecryptCtor, targets: seq<nat>, lens: seq<nat>, raw: seq<bv8>, k: nat)
    requires c.ptrTable < |globals| && c.lenTable < |globals|
    requires globals[c.ptrTable].init == PointerArray(targets) && globals[c.lenTable].init == LengthArray(lens)
    requires k < c.count && k < |targets| && k < |lens|
    requires targets[k] < |globals| && globals[targets[k]].init == StringArray(Cipher(raw, Seed(c.master, k)))
    requires lens[k] == Len32(|raw|) && |raw| < 0x1_0000_0000
    ensures TableImage(globals, c, k) == Some(raw)
  {
    var seed := Seed(c.master, k);
    var e := Cipher(raw, seed);
    assert globals[c.ptrTable].init.targets[k] == targets[k];
    assert globals[c.lenTable].init.lens[k] == |raw|;
    assert globals[targets[k]].init.bytes == e;
    assert TableImage(globals, c, k) == Some(Decoded(e, seed, |raw|));
    DecodeCipher(raw, seed);
  }

  /** Every entry of a table built from strings whose globals now hold their
      ciphers under master ^ k is restored by the constructor. */
  lemma TableRestored(globals: seq<Global>, c: DecryptCtor, gvList: seq<nat>, lenList: seq<nat>, rawStrings: seq<seq<bv8>>)
    requires c.ptrTable < |globals| && c.lenTable < |globals|
    requires globals[c.ptrTable].init == PointerArray(gvList) && globals[c.lenTable].init == LengthArray(lenList)
    requires c.count == |gvList| && |lenList| == |gvList| && |rawStrings| == |gvList|
    requires forall k :: 0 <= k < |gvList| ==>
               gvList[k] < |globals| && globals[gvList[k]].init == StringArray(Cipher(rawStrings[k], Seed(c.master, k)))
               && lenList[k] == Len32(|rawStrings[k]|) && |rawStrings[k]| < 0x1_0000_0000
    ensures forall k :: 0 <= k < |gvList| ==> TableImage(globals, c, k) == Some(rawStrings[k])
  {
    forall k | 0 <= k < |gvList|
      ensures TableImage(globals, c, k) == Some(rawStrings[k])
    {
      TableEntryRestored(globals, c, gvList, lenList, rawStrings[k], k);
    }
  }

  /** The table path on the globals: from g0 through the initializer loop
      (g1) to the two tables (g2), each listed global holds its cipher, the
      others are as they were, and the constructor c restores every entry. */
  lemma TableOutcome(g0: seq<Global>, g1: seq<Global>, g2: seq<Global>, gvList: seq<nat>, rawStrings: seq<seq<bv8>>,
                     ptrList: seq<nat>, lenList: seq<nat>, enc: seq<seq<bv8>>, c: DecryptCtor)
    requires |rawStrings| == |gvList| && |ptrList| == |gvList| && |lenList| == |gvList|
    requires enc == EncryptAll(rawStrings, c.master)
    requires forall k :: 0 <= k < |gvList| ==>
               gvList[k] < |g0| && ptrList[k] == gvList[k]
               && lenList[k] == Len32(|rawStrings[k]|) && |rawStrings[k]| < 0x8000_0000
    requires |g1| == |g0|
    requires forall k :: 0 <= k < |gvList| ==>
               g1[gvList[k]] == g0[gvList[k]].(init := StringArray(enc[k]), isConstant := false)
    requires forall i :: 0 <= i < |g1| && i !in gvList ==> g1[i] == g0[i]
    requires |g2| == |g1| + 2
    requires forall i :: 0 <= i < |g1| ==>
               g2[i] == g1[i].(uses := g1[i].uses + if i in ptrList then [OtherConstant] else [])
    requires c.ptrTable == |g1| && c.lenTable == |g1| + 1 && c.count == |gvList|
    requires g2[|g1|].init == PointerArray(ptrList) && g2[|g1| + 1].init == LengthArray(lenList)
    ensures forall k :: 0 <= k < |gvList| ==>
              g2[gvList[k]] == g0[gvList[k]].(init := StringArray(Cipher(rawStrings[k], Seed(c.master, k))), isConstant := false,
                                              uses := g0[gvList[k]].uses + [OtherConstant])
    ensures forall i :: 0 <= i < |g0| && i !in gvList ==> g2[i] == g0[i]
    ensures forall k :: 0 <= k < |gvList| ==> TableImage(g2, c, k) == Some(rawStrings[k])
  {
    assert ptrList == gvList;
    TableRestored(g2, c, gvList, lenList, rawStrings);
  }

  /** Buffers filled from a copy holding the cipher of text under the master
      seed, and decoded with it over the text's length, hold the text. */
  lemma StackBuffersRestore(globals: seq<Global>, copy: nat, text: seq<bv8>, master: bv32)
    requires |text| < 0x1_0000_0000
    requires copy < |globals| && globals[copy].init == StringArray(Cipher(text, master))
    ensures forall b: StackBuffer :: b.copy == copy && b.seed == master && b.size == Len32(|text|) ==>
              BufferImage(globals, b) == Some(text)
  {
    DecodeCipher(text, master);
  }

  /** XorEncryptStrings on a copy of the table path's raw_strings. */
  method EncryptList(rawStrings: seq<seq<bv8>>, master: bv32) returns (enc: seq<seq<bv8>>)
    ensures enc == EncryptAll(rawStrings, master)
  {
    var strings := new seq<bv8>[|rawStrings|](k requires 0 <= k < |rawStrings| => rawStrings[k]);
    XorEncryptStrings(strings, master);
    enc := strings[..];
  }

  /** XorEncryptStrings on the one-string list of the stack path: the string
      is keyed by the master seed itself. */
  method EncryptAlone(text: seq<bv8>, master: bv32) returns (enc: seq<bv8>)
    ensures enc == Cipher(text, master)
  {
    var strings := new seq<bv8>[1](_ => text);
    XorEncryptStrings(strings, master);
    enc := strings[0];
    SeedZero(master);
  }

  /** Random::UInt32 as a stream of draws, one per call. */
  class SeedSource {
    const draws: nat -> bv32
    var drawn: nat

    constructor (draws: nat -> bv32)
      ensures this.draws == draws && drawn == 0
    {
      this.draws := draws;
      drawn := 0;
    }

    method UInt32() returns (v: bv32)
      modifies this
      ensures v == draws(old(drawn)) && drawn == old(drawn) + 1
    {
      v := draws(drawn);
      drawn := drawn + 1;
    }
  }

  /** Every slot assignment of a keeps its name and slots in b. */
  predicate SlotsKept(a: map<string, Slots>, b: map<string, Slots>)
  {
    forall n :: n in a ==> n in b && b[n] == a[n]
  }

  /** The three i32 slots the decoder keeps its offset, state and byte index in. */
  datatype Slots = Slots(offset: nat, state: nat, j: nat)

  /** The cache of EmitDecryptBuffer: the slots allocated in each function,
      by function name, so that a function decoding several strings
      allocates them once.  Slots are numbered in allocation order. */
  class SlotCache {
    var slots: map<string, Slots>
    var next: nat

    constructor ()
      ensures Valid() && slots == map[]
    {
      slots := map[];
      next := 0;
    }

    /** Each function has three consecutive slots below next, and no two
        functions share a slot. */
    predicate Valid()
      reads this
    {
      && (forall f :: f in slots ==>
            slots[f].state == slots[f].offset + 1 && slots[f].j == slots[f].state + 1 && slots[f].j < next)
      && (forall f, g :: f in slots && g in slots && f != g ==>
            slots[f].j < slots[g].offset || slots[g].j < slots[f].offset)
    }

    /** The slots of function fn: those cached for its name, or three new ones. */
    method SlotsFor(fn: string) returns (s: Slots)
      requires Valid()
      modifies this
      ensures Valid()
      ensures fn in old(slots) ==> s == old(slots)[fn] && slots == old(slots) && next == old(next)
      ensures fn !in old(slots) ==> s == Slots(old(next), old(next) + 1, old(next) + 2)
                                     && slots == old(slots)[fn := s] && next == old(next) + 3
    {
      if fn in slots {
        s := slots[fn];
      } else {
        s := Slots(next, next + 1, next + 2);
        slots := slots[fn := s];
        next := next + 3;
      }
    }

    /** The slots of every function in sites, one after the other, as the
        decoders of their buffers are emitted. */
    method SlotsForAll(sites: seq<FunctionId>, fnName: FunctionId -> string)
      requires Valid()
      modifies this
      ensures Valid() && SlotsKept(old(slots), slots)
      ensures forall f :: f in sites ==> fnName(f) in slots
    {
      for j := 0 to |sites|
        invariant Valid() && SlotsKept(old(slots), slots)
        invariant forall k :: 0 <= k < j ==> fnName(sites[k]) in slots
      {
        var _ := SlotsFor(fnName(sites[j]));
      }
    }
  }

  // ---------------------------------------------------------------------
  // The pass on a module

  class Module {
    var globals: seq<Global>
    var erased: set<nat>
    var functions: nat
    var ctors: seq<DecryptCtor>
    var buffers: seq<StackBuffer>

    constructor (globals: seq<Global>, functions: nat)
      ensures this.globals == globals && this.functions == functions
      ensures erased == {} && ctors == [] && buffers == []
    {
      this.globals := globals;
      this.functions := functions;
      erased := {};
      ctors := [];
      buffers := [];
    }

    /** ObfuscateGlobalArrayStrings: without an OnString callback nothing
        happens; otherwise every global is classified, the table path runs
        when it has strings (one seed drawn), then the stack path (one seed
        per string).  Afterwards every table string reads as before once the
        new constructor has run; the stack globals, in list order, give
        buffers, one per instruction use their rewrite serves and in use
        order (a function using a string k times gets k of them), each holding
        the text chosen for its global, and are left without users; the
        globals neither path took are as they were.  Every function that
        got a decoder has its slots in the cache.  The emitted code indexes
        with sign-extended i32 values, so strings and the table stay below
        2^31 entries. */
    method ObfuscateGlobalArrayStrings(answers: seq<Option<int>>, hasOnString: bool, rng: SeedSource,
                                       cache: SlotCache, fnName: FunctionId -> string)
      returns (tableList: seq<nat>, stackList: seq<(nat, seq<bv8>)>)
      requires |answers| == |globals| < 0x8000_0000
      requires forall i :: 0 <= i < |globals| && globals[i].init.StringArray? ==> |globals[i].init.bytes| < 0x8000_0000
      requires cache.Valid()
      modifies this, rng, cache
      ensures !hasOnString ==> tableList == [] && stackList == []
      ensures !hasOnString ==> globals == old(globals) && buffers == old(buffers) && ctors == old(ctors)
                               && erased == old(erased) && rng.drawn == old(rng.drawn)
      ensures hasOnString ==> forall i :: i in tableList <==> 0 <= i < old(|globals|) && Classify(old(globals[i]), answers[i]).Table?
      ensures hasOnString ==> forall i, t :: (i, t) in stackList <==> 0 <= i < old(|globals|) && Classify(old(globals[i]), answers[i]) == Stack(t)
      ensures rng.drawn == old(rng.drawn) + (if tableList == [] then 0 else 1) + |stackList|
      ensures tableList != [] ==> |ctors| == |old(ctors)| + 1
      ensures |globals| >= old(|globals|)
      ensures forall k :: 0 <= k < |tableList| ==> tableList[k] < old(|globals|) && old(globals[tableList[k]]).init.StringArray?
      ensures forall k :: 0 <= k < |tableList| ==>
                !globals[tableList[k]].isConstant && globals[tableList[k]].uses == old(globals[tableList[k]].uses) + [OtherConstant]
                && TableImage(globals, ctors[|ctors| - 1], k) == Some(old(globals[tableList[k]].init.bytes))
      ensures |old(buffers)| <= |buffers| && forall j :: 0 <= j < |old(buffers)| ==> buffers[j] == old(buffers[j])
      ensures forall j :: |old(buffers)| <= j < |buffers| ==>
                BufferImage(globals, buffers[j]).Some? && (buffers[j].of, BufferImage(globals, buffers[j]).value) in stackList
      ensures erased == old(erased) + set k | 0 <= k < |stackList| :: stackList[k].0
      ensures forall i :: 0 <= i < old(|globals|) && i !in tableList && i !in StackGlobals(stackList) ==> globals[i] == old(globals[i])
      ensures forall k :: 0 <= k < |stackList| ==> stackList[k].0 < |globals| && globals[stackList[k].0].uses == []
      ensures BuffersFollow(buffers, |old(buffers)|, PlannedBuffers(old(globals), stackList, |stackList|))
      ensures cache.Valid() && SlotsKept(old(cache.slots), cache.slots)
      ensures tableList != [] ==> "__decrypt_ctor" in cache.slots
      ensures forall j :: |old(buffers)| <= j < |buffers| ==> fnName(buffers[j].func) in cache.slots
    {
      if !hasOnString {
        return [], [];
      }
      ghost var g0 := globals;
      tableList, stackList := TablePath(answers, rng, cache);
      ghost var g1, e1, b1 := globals, erased, buffers;
      ghost var last := if tableList == [] then None else Some(ctors[|ctors| - 1]);
      EncryptStackList(stackList, rng, cache, fnName);
      ObfuscateOutcome(g0, g1, e1, tableList, stackList, last, globals, erased);
      BuffersOutcome(g0, g1, b1, stackList, globals, buffers);
    }

    /** The first half of ObfuscateGlobalArrayStrings once OnString is
        found: the classification loop, then the table path when it has
        strings.  The stack globals are left as they were. */
    method TablePath(answers: seq<Option<int>>, rng: SeedSource, cache: SlotCache)
      returns (tableList: seq<nat>, stackList: seq<(nat, seq<bv8>)>)
      requires |answers| == |globals| < 0x8000_0000
      requires forall i :: 0 <= i < |globals| && globals[i].init.StringArray? ==> |globals[i].init.bytes| < 0x8000_0000
      requires cache.Valid()
      modifies this, rng, cache
      ensures forall i :: i in tableList <==> 0 <= i < old(|globals|) && Classify(old(globals[i]), answers[i]).Table?
      ensures forall i, t :: (i, t) in stackList <==> 0 <= i < old(|globals|) && Classify(old(globals[i]), answers[i]) == Stack(t)
      ensures Increasing(StackGlobals(stackList))
      ensures rng.drawn == old(rng.drawn) + (if tableList == [] then 0 else 1)
      ensures tableList != [] ==> |ctors| == |old(ctors)| + 1 && "__decrypt_ctor" in cache.slots
      ensures tableList == [] ==> ctors == old(ctors)
      ensures |globals| >= old(|globals|)
      ensures forall i :: 0 <= i < old(|globals|) && i !in tableList ==> globals[i] == old(globals[i])
      ensures forall k :: 0 <= k < |tableList| ==>
                tableList[k] < old(|globals|) && old(globals[tableList[k]]).init.StringArray?
                && tableList[k] !in StackGlobals(stackList) && !globals[tableList[k]].isConstant
                && globals[tableList[k]].uses == old(globals[tableList[k]].uses) + [OtherConstant]
                && TableImage(globals, ctors[|ctors| - 1], k) == Some(old(globals[tableList[k]].init.bytes))
      ensures forall k :: 0 <= k < |stackList| ==>
                stackList[k].0 < old(|globals|) && stackList[k].0 !in tableList
                && globals[stackList[k].0] == old(globals[stackList[k].0])
                && UsesValid(old(globals[stackList[k].0].uses)) && |stackList[k].1| < 0x8000_0000
      ensures erased == old(erased) && buffers == old(buffers)
      ensures cache.Valid() && SlotsKept(old(cache.slots), cache.slots)
    {
      var rawStrings, ptrList, lenList;
      tableList, rawStrings, ptrList, lenList, stackList := CollectTargets(globals, answers);
      StackApartFromTable(globals, answers, tableList, stackList);
      forall k | 0 <= k < |stackList|
        ensures stackList[k].0 < |globals| && stackList[k].0 !in tableList
        ensures UsesValid(globals[stackList[k].0].uses) && |stackList[k].1| < 0x8000_0000
      {
        assert (stackList[k].0, stackList[k].1) in stackList;
        assert stackList[k].0 !in tableList;
      }
      if tableList != [] {
        var master := rng.UInt32();
        EncryptTable(tableList, rawStrings, ptrList, lenList, master, cache);
      }
    }

    /** The table path: the strings are encrypted together with XorEncryptStrings,
        each table global gets its encryption as initializer, stops being
        constant and gains the pointer table's initializer as a constant
        user, the pointer and length tables are added, and a new
        constructor decodes them; once it has run, every table string holds
        its original bytes again. */
    method EncryptTable(gvList: seq<nat>, rawStrings: seq<seq<bv8>>, ptrList: seq<nat>, lenList: seq<nat>, master: bv32,
                        cache: SlotCache)
      requires |rawStrings| == |gvList| && |ptrList| == |gvList| && |lenList| == |gvList|
      requires Increasing(gvList)
      requires forall k :: 0 <= k < |gvList| ==>
                 gvList[k] < |globals| && globals[gvList[k]].init.StringArray?
                 && rawStrings[k] == globals[gvList[k]].init.bytes
                 && ptrList[k] == gvList[k]
                 && lenList[k] == Len32(|rawStrings[k]|)
                 && |rawStrings[k]| < 0x8000_0000
      requires cache.Valid()
      modifies this, cache
      ensures |globals| == old(|globals|) + 2
      ensures forall k :: 0 <= k < |gvList| ==>
                globals[gvList[k]] == old(globals[gvList[k]]).(init := StringArray(Cipher(rawStrings[k], Seed(master, k))), isConstant := false,
                                                               uses := old(globals[gvList[k]].uses) + [OtherConstant])
      ensures forall i :: 0 <= i < old(|globals|) && i !in gvList ==> globals[i] == old(globals[i])
      ensures globals[old(|globals|)] == Global("__enc_ptr_table", None, PointerArray(ptrList), false, [Inst(Some(old(functions)))])
      ensures globals[old(|globals|) + 1] == Global("__enc_len_table", None, LengthArray(lenList), false, [Inst(Some(old(functions)))])
      ensures functions == old(functions) + 1
      ensures ctors == old(ctors) + [DecryptCtor(old(functions), old(|globals|), old(|globals|) + 1, master, |gvList|)]
      ensures erased == old(erased) && buffers == old(buffers)
      ensures forall k :: 0 <= k < |gvList| ==> TableImage(globals, ctors[|ctors| - 1], k) == Some(rawStrings[k])
      ensures cache.Valid() && SlotsKept(old(cache.slots), cache.slots) && "__decrypt_ctor" in cache.slots
    {
      var enc := EncryptList(rawStrings, master);
      ghost var g0 := globals;
      SetInitializers(gvList, enc);
      ghost var g1 := globals;
      AddTables(ptrList, lenList, master, cache);
      TableOutcome(g0, g1, globals, gvList, rawStrings, ptrList, lenList, enc, ctors[|ctors| - 1]);
    }

    /** The two tables and the constructor that walks them; the
        constructor's decoder takes its slots from the cache.  The pointer
        table's initializer refers to every global it lists, so each of
        those gains one constant user. */
    method AddTables(ptrList: seq<nat>, lenList: seq<nat>, master: bv32, cache: SlotCache)
      requires |lenList| == |ptrList| && cache.Valid()
      modifies this, cache
      ensures |globals| == old(|globals|) + 2
      ensures forall i :: 0 <= i < old(|globals|) ==>
                globals[i] == old(globals[i]).(uses := old(globals[i].uses) + if i in ptrList then [OtherConstant] else [])
      ensures globals[old(|globals|)] == Global("__enc_ptr_table", None, PointerArray(ptrList), false, [Inst(Some(old(functions)))])
      ensures globals[old(|globals|) + 1] == Global("__enc_len_table", None, LengthArray(lenList), false, [Inst(Some(old(functions)))])
      ensures functions == old(functions) + 1
      ensures ctors == old(ctors) + [DecryptCtor(old(functions), old(|globals|), old(|globals|) + 1, master, |ptrList|)]
      ensures erased == old(erased) && buffers == old(buffers)
      ensures cache.Valid() && SlotsKept(old(cache.slots), cache.slots) && "__decrypt_ctor" in cache.slots
    {
      var _ := cache.SlotsFor("__decrypt_ctor");
      var ctor := functions;
      functions := functions + 1;
      var ptrTable := |globals|;
      var g := globals;
      globals := seq(|g|, i requires 0 <= i < |g| => if i in ptrList then g[i].(uses := g[i].uses + [OtherConstant]) else g[i])
                 + [Global("__enc_ptr_table", None, PointerArray(ptrList), false, [Inst(Some(ctor))]),
                            Global("__enc_len_table", None, LengthArray(lenList), false, [Inst(Some(ctor))])];
      ctors := ctors + [DecryptCtor(ctor, ptrTable, ptrTable + 1, master, |ptrList|)];
    }

    /** The initializer loop of the table path: global gvList[k] gets enc[k]
        and stops being constant; no other global changes. */
    method SetInitializers(gvList: seq<nat>, enc: seq<seq<bv8>>)
      requires |enc| == |gvList| && Increasing(gvList)
      requires forall k :: 0 <= k < |gvList| ==> gvList[k] < |globals|
      modifies this
      ensures |globals| == old(|globals|)
      ensures forall k :: 0 <= k < |gvList| ==>
                globals[gvList[k]] == old(globals[gvList[k]]).(init := StringArray(enc[k]), isConstant := false)
      ensures forall i :: 0 <= i < |globals| && i !in gvList ==> globals[i] == old(globals[i])
      ensures functions == old(functions) && ctors == old(ctors) && erased == old(erased) && buffers == old(buffers)
    {
      for k := 0 to |gvList|
        invariant |globals| == old(|globals|)
        invariant forall m :: 0 <= m < k ==>
                    globals[gvList[m]] == old(globals[gvList[m]]).(init := StringArray(enc[m]), isConstant := false)
        invariant forall i :: 0 <= i < |globals| && i !in gvList[..k] ==> globals[i] == old(globals[i])
        invariant functions == old(functions) && ctors == old(ctors) && erased == old(erased) && buffers == old(buffers)
      {
        var i := gvList[k];
        assert gvList[..k + 1] == gvList[..k] + [i];
        globals := globals[i := globals[i].(init := StringArray(enc[k]), isConstant := false)];
      }
      assert gvList[..|gvList|] == gvList;
    }

    /** The stack path for one global: its text is encrypted alone with its
        own master seed into a new private global, every instruction that
        reached the global gets a buffer of its own in its function (so a
        function using the string k times gets k buffers), filled from that
        copy and decoded with the master seed over the copy's size, and the
        global is erased.  Each new buffer holds the text once decoded, and
        each function holding one has the decoder's slots in the cache.
        This is the corrected rewrite; see RewriteAsWritten for the code as
        it stands. */
    method EncryptOnStack(gi: nat, text: seq<bv8>, master: bv32, cache: SlotCache, fnName: FunctionId -> string)
      requires gi < |globals| && |text| < 0x8000_0000 && cache.Valid()
      modifies this, cache
      ensures |globals| == old(|globals|) + 1
      ensures globals[gi] == old(globals[gi]).(uses := RewriteUses(old(globals[gi].uses)).left)
      ensures forall i :: 0 <= i < old(|globals|) && i != gi ==> globals[i] == old(globals[i])
      ensures globals[old(|globals|)]
              == Global("", None, StringArray(Cipher(text, master)), false, CopyUses(RewriteUses(old(globals[gi].uses)).buffers))
      ensures |buffers| == |old(buffers)| + |RewriteUses(old(globals[gi].uses)).buffers|
      ensures forall j :: 0 <= j < |old(buffers)| ==> buffers[j] == old(buffers[j])
      ensures forall j :: |old(buffers)| <= j < |buffers| ==>
                buffers[j] == StackBuffer(RewriteUses(old(globals[gi].uses)).buffers[j - |old(buffers)|], gi, old(|globals|), master, Len32(|text|))
      ensures erased == old(erased) + {gi}
      ensures functions == old(functions) && ctors == old(ctors)
      ensures forall j :: |old(buffers)| <= j < |buffers| ==> BufferImage(globals, buffers[j]) == Some(text)
      ensures cache.Valid() && SlotsKept(old(cache.slots), cache.slots)
      ensures forall f :: f in RewriteUses(old(globals[gi].uses)).buffers ==> fnName(f) in cache.slots
    {
      var sites, left := RedirectUses(globals[gi].uses);
      cache.SlotsForAll(sites, fnName);
      var enc := EncryptAlone(text, master);
      var copy := |globals|;
      var size := Len32(|text|);
      var g1 := globals[gi := globals[gi].(uses := left)]
                + [Global("", None, StringArray(enc), false, CopyUses(sites))];
      var made := seq(|sites|, j requires 0 <= j < |sites| => StackBuffer(sites[j], gi, copy, master, size));
      StackBuffersRestore(g1, copy, text, master);
      globals, buffers, erased := g1, buffers + made, erased + {gi};
    }

    /** The stack path for the whole stack list, in order, one seed drawn
        per string: the buffers come in the planned order and every stack
        global is left with what its rewrite leaves. */
    method EncryptStackList(stackList: seq<(nat, seq<bv8>)>, rng: SeedSource, cache: SlotCache, fnName: FunctionId -> string)
      requires forall k :: 0 <= k < |stackList| ==> stackList[k].0 < |globals| && |stackList[k].1| < 0x8000_0000
      requires Increasing(StackGlobals(stackList)) && cache.Valid()
      modifies this, rng, cache
      ensures StackDone(old(globals), old(erased), old(buffers), stackList, |stackList|, globals, erased, buffers)
      ensures functions == old(functions) && ctors == old(ctors)
      ensures rng.drawn == old(rng.drawn) + |stackList|
      ensures cache.Valid() && SlotsKept(old(cache.slots), cache.slots)
      ensures BuffersCached(buffers, old(|buffers|), fnName, cache.slots)
    {
      ghost var g0 := globals;
      ghost var b0 := buffers;
      ghost var e0 := erased;
      ghost var d0 := rng.drawn;
      for t := 0 to |stackList|
        invariant StackDone(g0, e0, b0, stackList, t, globals, erased, buffers)
        invariant functions == old(functions) && ctors == old(ctors)
        invariant rng.drawn == d0 + t
        invariant cache.Valid() && SlotsKept(old(cache.slots), cache.slots)
        invariant BuffersCached(buffers, |b0|, fnName, cache.slots)
      {
        StackTurn(stackList, t, rng, cache, fnName, g0, e0, b0);
      }
    }

    /** Turn t of the stack loop, from the state after t entries to the
        state after t + 1. */
    method StackTurn(stackList: seq<(nat, seq<bv8>)>, t: nat, rng: SeedSource, cache: SlotCache, fnName: FunctionId -> string,
                     ghost g0: seq<Global>, ghost e0: set<nat>, ghost b0: seq<StackBuffer>)
      requires t < |stackList| && |stackList[t].1| < 0x8000_0000
      requires Increasing(StackGlobals(stackList)) && cache.Valid()
      requires StackDone(g0, e0, b0, stackList, t, globals, erased, buffers)
      requires BuffersCached(buffers, |b0|, fnName, cache.slots)
      modifies this, rng, cache
      ensures StackDone(g0, e0, b0, stackList, t + 1, globals, erased, buffers)
      ensures functions == old(functions) && ctors == old(ctors)
      ensures rng.drawn == old(rng.drawn) + 1
      ensures cache.Valid() && SlotsKept(old(cache.slots), cache.slots)
      ensures BuffersCached(buffers, |b0|, fnName, cache.slots)
    {
      ghost var g, e, b := globals, erased, buffers;
      StackReady(g0, e0, b0, stackList, t, globals, erased, buffers);
      StackStep(stackList, t, rng, |b0|, cache, fnName, RewriteUses(g0[stackList[t].0].uses), PlannedBuffers(g0, stackList, t));
      StackDoneStep(g0, e0, b0, stackList, t, g, e, b, globals, erased, buffers);
    }

    /** One turn of the stack loop: a seed is drawn and entry t goes on the stack. */
    method StackStep(stackList: seq<(nat, seq<bv8>)>, t: nat, rng: SeedSource, ghost from: nat,
                     cache: SlotCache, fnName: FunctionId -> string, ghost r: Rewrite, ghost planned: seq<(FunctionId, nat)>)
      requires t < |stackList| && stackList[t].0 < |globals| && |stackList[t].1| < 0x8000_0000
      requires r == RewriteUses(globals[stackList[t].0].uses)
      requires BuffersFollow(buffers, from, planned) && cache.Valid()
      requires BuffersDecode(globals, buffers, from, stackList)
      requires BuffersCached(buffers, from, fnName, cache.slots)
      modifies this, rng, cache
      ensures StackStepped(stackList, t, r, from, planned, old(globals), old(erased), old(buffers), globals, erased, buffers)
      ensures functions == old(functions) && ctors == old(ctors)
      ensures rng.drawn == old(rng.drawn) + 1
      ensures cache.Valid() && SlotsKept(old(cache.slots), cache.slots)
      ensures BuffersCached(buffers, from, fnName, cache.slots)
    {
      var (gi, text) := stackList[t];
      var master := rng.UInt32();
      ghost var g1, b1 := globals, buffers;
      EncryptOnStack(gi, text, master, cache, fnName);
      NewBuffersPlanned(buffers, b1, from, planned, r.buffers, gi);
      ImagesKept(g1, globals);
      forall j | from <= j < |buffers|
        ensures BufferImage(globals, buffers[j]).Some? && (buffers[j].of, BufferImage(globals, buffers[j]).value) in stackList
        ensures fnName(buffers[j].func) in cache.slots
      {
        if j < |b1| {
          assert buffers[j] == b1[j];
        } else {
          assert (buffers[j].of, BufferImage(globals, buffers[j]).value) == stackList[t];
          assert buffers[j].func in r.buffers;
        }
      }
    }
  }

  /** The state of globals, erased set and buffers once the first t entries
      of the stack list went on the stack, starting from g0, e0 and b0: each
      of those globals is left with what its rewrite leaves and is erased,
      the globals of later entries and of no entry are as they were, and
      the new buffers follow the plan and decode to their texts. */
  ghost predicate StackDone(g0: seq<Global>, e0: set<nat>, b0: seq<StackBuffer>, stackList: seq<(nat, seq<bv8>)>, t: nat,
                            globals: seq<Global>, erased: set<nat>, buffers: seq<StackBuffer>)
  {
    GlobalsDone(g0, e0, stackList, t, globals, erased) && BuffersDone(g0, b0, stackList, t, globals, buffers)
  }

  /** The globals and the erased set after the first t stack entries. */
  ghost predicate GlobalsDone(g0: seq<Global>, e0: set<nat>, stackList: seq<(nat, seq<bv8>)>, t: nat,
                              globals: seq<Global>, erased: set<nat>)
  {
    t <= |stackList| && (forall k :: 0 <= k < |stackList| ==> stackList[k].0 < |g0|)
    && |globals| == |g0| + t
    && InitsKept(g0, globals)
    && (forall i :: 0 <= i < |g0| && i !in StackGlobals(stackList) ==> globals[i] == g0[i])
    && (forall k :: t <= k < |stackList| ==> globals[stackList[k].0] == g0[stackList[k].0])
    && (forall k :: 0 <= k < t ==> globals[stackList[k].0].uses == RewriteUses(g0[stackList[k].0].uses).left)
    && erased == e0 + (set k | 0 <= k < t :: stackList[k].0)
  }

  /** The buffers after the first t stack entries. */
  ghost predicate BuffersDone(g0: seq<Global>, b0: seq<StackBuffer>, stackList: seq<(nat, seq<bv8>)>, t: nat,
                              globals: seq<Global>, buffers: seq<StackBuffer>)
  {
    t <= |stackList|
    && BuffersFollow(buffers, |b0|, PlannedBuffers(g0, stackList, t))
    && (forall j :: 0 <= j < |b0| ==> buffers[j] == b0[j])
    && BuffersDecode(globals, buffers, |b0|, stackList)
  }

  /** Before turn t of the stack loop, entry t is still as it was and the
      buffers so far follow the plan. */
  lemma StackReady(g0: seq<Global>, e0: set<nat>, b0: seq<StackBuffer>, stackList: seq<(nat, seq<bv8>)>, t: nat,
                   globals: seq<Global>, erased: set<nat>, buffers: seq<StackBuffer>)
    requires t < |stackList| && StackDone(g0, e0, b0, stackList, t, globals, erased, buffers)
    ensures stackList[t].0 < |g0| && stackList[t].0 < |globals|
    ensures RewriteUses(g0[stackList[t].0].uses) == RewriteUses(globals[stackList[t].0].uses)
    ensures BuffersFollow(buffers, |b0|, PlannedBuffers(g0, stackList, t))
    ensures BuffersDecode(globals, buffers, |b0|, stackList)
  {
  }

  /** What one turn of the stack loop does to globals g, erased set e and
      buffers b for entry t, whose uses rewrite to r. */
  ghost predicate StackStepped(stackList: seq<(nat, seq<bv8>)>, t: nat, r: Rewrite, from: nat, planned: seq<(FunctionId, nat)>,
                               g: seq<Global>, e: set<nat>, b: seq<StackBuffer>,
                               g1: seq<Global>, e1: set<nat>, b1: seq<StackBuffer>)
  {
    GlobalsStepped(stackList, t, r, g, e, g1, e1) && BuffersStepped(stackList, t, r, from, planned, g1, b, b1)
  }

  /** What one turn of the stack loop does to the globals and the erased
      set. */
  ghost predicate GlobalsStepped(stackList: seq<(nat, seq<bv8>)>, t: nat, r: Rewrite,
                                 g: seq<Global>, e: set<nat>, g1: seq<Global>, e1: set<nat>)
  {
    t < |stackList| && stackList[t].0 < |g|
    && |g1| == |g| + 1 && InitsKept(g, g1)
    && (forall i :: 0 <= i < |g| && i != stackList[t].0 ==> g1[i] == g[i])
    && g1[stackList[t].0].uses == r.left
    && e1 == e + {stackList[t].0}
  }

  /** What one turn of the stack loop does to the buffers. */
  ghost predicate BuffersStepped(stackList: seq<(nat, seq<bv8>)>, t: nat, r: Rewrite, from: nat, planned: seq<(FunctionId, nat)>,
                                 g1: seq<Global>, b: seq<StackBuffer>, b1: seq<StackBuffer>)
  {
    t < |stackList|
    && |b| <= |b1| && (forall j :: 0 <= j < |b| ==> b1[j] == b[j])
    && BuffersFollow(b1, from, planned + Sites(r.buffers, stackList[t].0))
    && BuffersDecode(g1, b1, from, stackList)
  }

  /** The table path, then the stack path: the table strings still read as
      before through the last constructor, the stack globals are left
      without users, and the globals neither path took are as they were. */
  lemma ObfuscateOutcome(g0: seq<Global>, g1: seq<Global>, e1: set<nat>,
                         tableList: seq<nat>, stackList: seq<(nat, seq<bv8>)>, last: Option<DecryptCtor>,
                         g: seq<Global>, e: set<nat>)
    requires |g0| <= |g1|
    requires forall i :: 0 <= i < |g0| && i !in tableList ==> g1[i] == g0[i]
    requires tableList != [] ==> last.Some?
    requires forall k :: 0 <= k < |tableList| ==>
               tableList[k] < |g0| && g0[tableList[k]].init.StringArray?
               && tableList[k] !in StackGlobals(stackList) && !g1[tableList[k]].isConstant
               && g1[tableList[k]].uses == g0[tableList[k]].uses + [OtherConstant]
               && TableImage(g1, last.value, k) == Some(g0[tableList[k]].init.bytes)
    requires forall k :: 0 <= k < |stackList| ==>
               stackList[k].0 < |g0| && g1[stackList[k].0] == g0[stackList[k].0] && UsesValid(g0[stackList[k].0].uses)
    requires GlobalsDone(g1, e1, stackList, |stackList|, g, e)
    ensures |g| >= |g0|
    ensures forall k :: 0 <= k < |tableList| ==>
              !g[tableList[k]].isConstant && g[tableList[k]].uses == g0[tableList[k]].uses + [OtherConstant]
              && TableImage(g, last.value, k) == Some(g0[tableList[k]].init.bytes)
    ensures e == e1 + set k | 0 <= k < |stackList| :: stackList[k].0
    ensures forall i :: 0 <= i < |g0| && i !in tableList && i !in StackGlobals(stackList) ==> g[i] == g0[i]
    ensures forall k :: 0 <= k < |stackList| ==> stackList[k].0 < |g| && g[stackList[k].0].uses == []
  {
    TablesSurvive(g0, g1, e1, tableList, stackList, last, g, e);
    StackCleared(g0, g1, e1, stackList, g, e);
    GlobalsOutcome(g0, g1, e1, tableList, stackList, g, e);
  }

  /** Once the stack path is done, the globals it did not take are as they
      were before the table path, and it has erased exactly its globals. */
  lemma GlobalsOutcome(g0: seq<Global>, g1: seq<Global>, e1: set<nat>, tableList: seq<nat>,
                       stackList: seq<(nat, seq<bv8>)>, g: seq<Global>, e: set<nat>)
    requires |g0| <= |g1|
    requires forall i :: 0 <= i < |g0| && i !in tableList ==> g1[i] == g0[i]
    requires GlobalsDone(g1, e1, stackList, |stackList|, g, e)
    ensures |g| >= |g0|
    ensures e == e1 + set k | 0 <= k < |stackList| :: stackList[k].0
    ensures forall i :: 0 <= i < |g0| && i !in tableList && i !in StackGlobals(stackList) ==> g[i] == g0[i]
  {
  }

  /** Once the stack path is done, the old buffers are kept and the new ones
      follow the plan drawn on the globals as they were before the table
      path, each decoding to the text of its entry. */
  lemma BuffersOutcome(g0: seq<Global>, g1: seq<Global>, b1: seq<StackBuffer>,
                       stackList: seq<(nat, seq<bv8>)>, g: seq<Global>, b: seq<StackBuffer>)
    requires forall k :: 0 <= k < |stackList| ==>
               stackList[k].0 < |g0| && stackList[k].0 < |g1| && g1[stackList[k].0] == g0[stackList[k].0]
    requires BuffersDone(g1, b1, stackList, |stackList|, g, b)
    ensures |b1| <= |b| && forall j :: 0 <= j < |b1| ==> b[j] == b1[j]
    ensures forall j :: |b1| <= j < |b| ==> BufferImage(g, b[j]).Some? && (b[j].of, BufferImage(g, b[j]).value) in stackList
    ensures BuffersFollow(b, |b1|, PlannedBuffers(g0, stackList, |stackList|))
  {
    assert BuffersFollow(b, |b1|, PlannedBuffers(g1, stackList, |stackList|)) && BuffersDecode(g, b, |b1|, stackList);
    PlannedFrame(g0, g1, stackList, |stackList|);
  }

  /** The table globals, which the stack path does not take, still read as
      before through the last constructor once the stack path is done. */
  lemma TablesSurvive(g0: seq<Global>, g1: seq<Global>, e1: set<nat>,
                      tableList: seq<nat>, stackList: seq<(nat, seq<bv8>)>, last: Option<DecryptCtor>,
                      g: seq<Global>, e: set<nat>)
    requires |g0| <= |g1|
    requires tableList != [] ==> last.Some?
    requires forall k :: 0 <= k < |tableList| ==>
               tableList[k] < |g0| && g0[tableList[k]].init.StringArray?
               && tableList[k] !in StackGlobals(stackList) && !g1[tableList[k]].isConstant
               && g1[tableList[k]].uses == g0[tableList[k]].uses + [OtherConstant]
               && TableImage(g1, last.value, k) == Some(g0[tableList[k]].init.bytes)
    requires GlobalsDone(g1, e1, stackList, |stackList|, g, e)
    ensures forall k :: 0 <= k < |tableList| ==>
              !g[tableList[k]].isConstant && g[tableList[k]].uses == g0[tableList[k]].uses + [OtherConstant]
              && TableImage(g, last.value, k) == Some(g0[tableList[k]].init.bytes)
  {
    ImagesKept(g1, g);
    forall k | 0 <= k < |tableList|
      ensures !g[tableList[k]].isConstant && g[tableList[k]].uses == g0[tableList[k]].uses + [OtherConstant]
      ensures TableImage(g, last.value, k) == Some(g0[tableList[k]].init.bytes)
    {
      assert g[tableList[k]] == g1[tableList[k]];
    }
  }

  /** Once the stack path is done, every stack global is left without
      users. */
  lemma StackCleared(g0: seq<Global>, g1: seq<Global>, e1: set<nat>,
                     stackList: seq<(nat, seq<bv8>)>, g: seq<Global>, e: set<nat>)
    requires |g0| <= |g1|
    requires forall k :: 0 <= k < |stackList| ==>
               stackList[k].0 < |g0| && g1[stackList[k].0] == g0[stackList[k].0] && UsesValid(g0[stackList[k].0].uses)
    requires GlobalsDone(g1, e1, stackList, |stackList|, g, e)
    ensures forall k :: 0 <= k < |stackList| ==> stackList[k].0 < |g| && g[stackList[k].0].uses == []
  {
    forall k | 0 <= k < |stackList|
      ensures stackList[k].0 < |g| && g[stackList[k].0].uses == []
    {
      assert stackList[k].0 < |g0| <= |g1|;
      RewriteLeavesNothing(g0[stackList[k].0].uses);
    }
  }

  /** One turn of the stack loop takes the state after t entries to the
      state after t + 1. */
  lemma StackDoneStep(g0: seq<Global>, e0: set<nat>, b0: seq<StackBuffer>, stackList: seq<(nat, seq<bv8>)>, t: nat,
                      g: seq<Global>, e: set<nat>, b: seq<StackBuffer>,
                      g1: seq<Global>, e1: set<nat>, b1: seq<StackBuffer>)
    requires t < |stackList| && Increasing(StackGlobals(stackList))
    requires StackDone(g0, e0, b0, stackList, t, g, e, b)
    requires StackStepped(stackList, t, RewriteUses(g0[stackList[t].0].uses), |b0|, PlannedBuffers(g0, stackList, t), g, e, b, g1, e1, b1)
    ensures StackDone(g0, e0, b0, stackList, t + 1, g1, e1, b1)
  {
    GlobalsDoneStep(g0, e0, stackList, t, g, e, g1, e1);
    BuffersDoneStep(g0, b0, stackList, t, b, g1, b1);
  }

  /** The globals half of StackDoneStep. */
  lemma GlobalsDoneStep(g0: seq<Global>, e0: set<nat>, stackList: seq<(nat, seq<bv8>)>, t: nat,
                        g: seq<Global>, e: set<nat>, g1: seq<Global>, e1: set<nat>)
    requires t < |stackList| && Increasing(StackGlobals(stackList))
    requires GlobalsDone(g0, e0, stackList, t, g, e)
    requires GlobalsStepped(stackList, t, RewriteUses(g0[stackList[t].0].uses), g, e, g1, e1)
    ensures GlobalsDone(g0, e0, stackList, t + 1, g1, e1)
  {
    var sg := StackGlobals(stackList);
    var gi := stackList[t].0;
    assert sg[t] == gi;
    assert forall k :: 0 <= k < |sg| && k != t ==> sg[k] != gi;
    forall i | 0 <= i < |g0| && i !in sg
      ensures g1[i] == g0[i]
    {
      assert i != gi;
    }
    forall k | t + 1 <= k < |stackList|
      ensures g1[stackList[k].0] == g0[stackList[k].0]
    {
      assert sg[k] != gi;
    }
    forall k | 0 <= k < t + 1
      ensures g1[stackList[k].0].uses == RewriteUses(g0[stackList[k].0].uses).left
    {
      if k < t {
        assert sg[k] != gi;
      }
    }
    assert (set k | 0 <= k < t + 1 :: stackList[k].0) == (set k | 0 <= k < t :: stackList[k].0) + {gi};
  }

  /** The buffers half of StackDoneStep. */
  lemma BuffersDoneStep(g0: seq<Global>, b0: seq<StackBuffer>, stackList: seq<(nat, seq<bv8>)>, t: nat,
                        b: seq<StackBuffer>, g1: seq<Global>, b1: seq<StackBuffer>)
    requires t < |stackList| && stackList[t].0 < |g0|
    requires BuffersFollow(b, |b0|, PlannedBuffers(g0, stackList, t)) && forall j :: 0 <= j < |b0| ==> b[j] == b0[j]
    requires BuffersStepped(stackList, t, RewriteUses(g0[stackList[t].0].uses), |b0|, PlannedBuffers(g0, stackList, t), g1, b, b1)
    ensures BuffersDone(g0, b0, stackList, t + 1, g1, b1)
  {
    var gi := stackList[t].0;
    var planned := PlannedBuffers(g0, stackList, t) + Sites(RewriteUses(g0[gi].uses).buffers, gi);
    assert PlannedBuffers(g0, stackList, t + 1) == planned;
    assert BuffersFollow(b1, |b0|, planned);
    assert |b0| <= |b| <= |b1|;
    forall j | 0 <= j < |b0|
      ensures b1[j] == b0[j]
    {
      assert b1[j] == b[j];
    }
    assert BuffersDecode(g1, b1, |b0|, stackList);
  }

  /** The buffers from index from on are, in order, for the planned
      (function, global) pairs. */
  predicate BuffersFollow(buffers: seq<StackBuffer>, from: nat, planned: seq<(FunctionId, nat)>)
  {
    |buffers| == from + |planned|
    && forall j :: from <= j < |buffers| ==> (buffers[j].func, buffers[j].of) == planned[j - from]
  }

  /** Every buffer from index from on decodes to the text of its own entry
      of the stack list. */
  predicate BuffersDecode(globals: seq<Global>, buffers: seq<StackBuffer>, from: nat, stackList: seq<(nat, seq<bv8>)>)
  {
    forall j :: from <= j < |buffers| ==>
      BufferImage(globals, buffers[j]).Some? && (buffers[j].of, BufferImage(globals, buffers[j]).value) in stackList
  }

  /** Every buffer from index from on lies in a function that has slots. */
  predicate BuffersCached(buffers: seq<StackBuffer>, from: nat, fnName: FunctionId -> string, slots: map<string, Slots>)
  {
    forall j :: from <= j < |buffers| ==> fnName(buffers[j].func) in slots
  }

  /** The buffers after one more stack entry follow the plan extended by
      that entry's sites. */
  lemma NewBuffersPlanned(buffers: seq<StackBuffer>, b1: seq<StackBuffer>, from: nat,
                          planned: seq<(FunctionId, nat)>, fs: seq<FunctionId>, gi: nat)
    requires from <= |b1| <= |buffers| && BuffersFollow(b1, from, planned)
    requires forall j :: 0 <= j < |b1| ==> buffers[j] == b1[j]
    requires |buffers| == |b1| + |fs|
    requires forall j :: |b1| <= j < |buffers| ==> buffers[j].func == fs[j - |b1|] && buffers[j].of == gi
    ensures BuffersFollow(buffers, from, planned + Sites(fs, gi))
  {
    forall j | from <= j < |buffers|
      ensures (buffers[j].func, buffers[j].of) == (planned + Sites(fs, gi))[j - from]
    {
      if j < |b1| {
        assert buffers[j] == b1[j];
      }
    }
  }

  /** The copy is read by one memcpy in each function that got a buffer. */
  function CopyUses(sites: seq<FunctionId>): (r: seq<User>)
    ensures |r| == |sites|
  {
    seq(|sites|, j requires 0 <= j < |sites| => Inst(Some(sites[j])))
  }

}
