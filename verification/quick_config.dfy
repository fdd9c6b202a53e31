/**
 * QuickConfig: how the configuration script's answers become pass metadata.
 *
 * RegisterPasses calls the script's RunOnFunction once for every function
 * of the module that has a body, with current_function set to it.  Inside
 * that call the script may ask, any number of times, for a pass to be
 * registered on the function (RegisterFunctionPass): the pass is chosen by
 * its ObfuscationType number and configured by a script object whose
 * PassIterations property gates the registration and whose properties,
 * converted to integers, become the options stored with it.
 *
 * The script object is the list of its own enumerable string-keyed
 * properties in enumeration order, each value either undefined or the text
 * JS_ToCString gives for it.  What the script does inside RunOnFunction is
 * an input: the registration requests it makes for each function, in
 * order, and how the call ends.
 */
module QuickConfig {
  import opened Optional
  import opened PassMetadata
  import opened CNumbers

  /** An entry of zyrox_passes: the name the script sees and the code name
      the pass is registered under. */
  datatype PassInfo = PassInfo(name: string, codeName: string)

  /** The members of the ObfuscationType enum of the plugin's typings, in
      declaration order. */
  const EnumNames: seq<string> :=
    ["MixedBooleanArithmetic", "ControlFlowFlattening", "BasicBlockSplitter", "IndirectBranch", "SimpleIndirectBranch"]

  /** A registry whose entries are in the order of the enum. */
  predicate FollowsEnum(registry: seq<PassInfo>)
  {
    |registry| == |EnumNames| && forall i :: 0 <= i < |registry| ==> registry[i].name == EnumNames[i]
  }

  /** The value of the first property named key. */
  function Lookup<V>(props: seq<(string, V)>, key: string): Option<V>
  {
    if props == [] then None
    else if props[0].0 == key then Some(props[0].1)
    else Lookup(props[1..], key)
  }

  predicate DistinctKeys<V>(props: seq<(string, V)>)
  {
    forall i, j :: 0 <= i < j < |props| ==> props[i].0 != props[j].0
  }

  /** With distinct keys, looking up the key of entry k gives its value. */
  lemma {:induction false} LookupDistinct<V>(props: seq<(string, V)>, k: nat)
    requires DistinctKeys(props) && k < |props|
    ensures Lookup(props, props[k].0) == Some(props[k].1)
  {
    if k > 0 {
      assert props[1..][k - 1] == props[k];
      assert props[0].0 != props[k].0;
      LookupDistinct(props[1..], k - 1);
    }
  }

  /** Lookup finds nothing exactly when no property has that name. */
  lemma {:induction false} LookupMissing<V>(props: seq<(string, V)>, key: string)
    ensures Lookup(props, key).None? <==> forall i :: 0 <= i < |props| ==> props[i].0 != key
  {
    if props != [] && props[0].0 != key {
      LookupMissing(props[1..], key);
      assert forall i :: 1 <= i < |props| ==> props[i] == props[1..][i - 1];
    }
  }

  /** A value found by Lookup belongs to a property of that name. */
  lemma {:induction false} LookupFound<V>(props: seq<(string, V)>, key: string)
    requires Lookup(props, key).Some?
    ensures (key, Lookup(props, key).value) in props
  {
    if props[0].0 != key {
      LookupFound(props[1..], key);
    }
  }

  /** The ObfuscationType object the runtime gives the script: one property
      per registered pass, named after it and numbered from 0 in registry
      order. */
  method ObfuscationTypes(registry: seq<PassInfo>) returns (types: seq<(string, int)>)
    ensures |types| == |registry|
    ensures forall i :: 0 <= i < |registry| ==> types[i] == (registry[i].name, i)
  {
    types := [];
    var number := 0;
    for i := 0 to |registry|
      invariant number == i && |types| == i
      invariant forall k :: 0 <= k < i ==> types[k] == (registry[k].name, k)
    {
      types := types + [(registry[i].name, number)];
      number := number + 1;
    }
  }

  /** When the registry follows the enum, ObfuscationType.X in the script is
      X's position in the enum, and that number selects the pass named X. */
  lemma EnumNumbering(registry: seq<PassInfo>, types: seq<(string, int)>, k: nat)
    requires FollowsEnum(registry) && k < |EnumNames|
    requires |types| == |registry| && forall i :: 0 <= i < |registry| ==> types[i] == (registry[i].name, i)
    ensures Lookup(types, EnumNames[k]) == Some(k)
    ensures registry[k].name == EnumNames[k]
  {
    assert forall i :: 0 <= i < |types| ==> types[i].0 == EnumNames[i];
    LookupDistinct(types, k);
  }

  // ---------------------------------------------------------------------
  // RegisterFunctionPass

  /** A script object: its own enumerable string-keyed properties in
      enumeration order, each undefined (None) or given as text. */
  type JsObject = seq<(string, Option<string>)>

  /** JS_ToCString of a property value. */
  function ToText(v: Option<string>): string
  {
    if v.None? then "undefined" else v.value
  }

  /** PassIterations as std::stoi reads it: 0 when the property is missing
      or undefined, Throws where stoi throws. */
  datatype Count = Count(n: int) | Throws

  function Iterations(obj: JsObject): Count
  {
    var found: Option<Option<string>> := Lookup(obj, "PassIterations");
    if found.Some? && found.value.Some? then
      var n := Stoi(found.value.value);
      if n.Some? then Count(n.value) else Throws
    else Count(0)
  }

  /** A property as the options list stores it: its key and std::atoi of
      its text. */
  function OptionEntry(p: (string, Option<string>)): (string, int)
  {
    (p.0, Atoi(ToText(p.1)))
  }

  /** Every property as an option, in order. */
  function Options(obj: JsObject): (kv: KV)
    ensures |kv| == |obj|
  {
    if obj == [] then [] else Options(obj[..|obj| - 1]) + [OptionEntry(obj[|obj| - 1])]
  }

  lemma {:induction false} OptionsAt(obj: JsObject, i: nat)
    requires i < |obj|
    ensures Options(obj)[i] == OptionEntry(obj[i])
  {
    if i < |obj| - 1 {
      OptionsAt(obj[..|obj| - 1], i);
    }
  }

  datatype Outcome =
    | InvalidType               // the type number names no pass
    | StoiThrew                 // PassIterations is not an int: stoi throws
    | NotPositive(count: int)   // PassIterations is 0 or less: ignored
    | EnumerationFailed         // the property names could not be listed
    | Registered(codeName: string, kv: KV)

  /** What RegisterFunctionPass decides for a request; enumerates says
      whether listing the object's property names succeeds. */
  function Decide(registry: seq<PassInfo>, passType: int, obj: JsObject, enumerates: bool): Outcome
  {
    if passType < 0 || passType >= |registry| then InvalidType
    else
      var count := Iterations(obj);
      if count.Throws? then StoiThrew
      else if count.n <= 0 then NotPositive(count.n)
      else if !enumerates then EnumerationFailed
      else Registered(registry[passType].codeName, Options(obj))
  }

  /** The five outcomes and when each happens: a type number outside the
      registry is an error, a PassIterations stoi cannot read throws, a
      missing or non-positive one is ignored, unlistable properties end the
      call, and only then is the pass registered under its code name. */
  lemma DecideCases(registry: seq<PassInfo>, passType: int, obj: JsObject, enumerates: bool)
    ensures var o := Decide(registry, passType, obj, enumerates);
            var valid := 0 <= passType < |registry|;
            var count := Iterations(obj);
            && (o.InvalidType? <==> !valid)
            && (o.StoiThrew? <==> valid && count.Throws?)
            && (o.NotPositive? <==> valid && count.Count? && count.n <= 0)
            && (o.EnumerationFailed? <==> valid && count.Count? && count.n > 0 && !enumerates)
            && (o.Registered? <==> valid && count.Count? && count.n > 0 && enumerates)
            && (o.Registered? ==> o.codeName == registry[passType].codeName)
    ensures (forall i :: 0 <= i < |obj| ==> obj[i].0 != "PassIterations") && 0 <= passType < |registry| ==>
              Decide(registry, passType, obj, enumerates) == NotPositive(0)
  {
    LookupMissing(obj, "PassIterations");
  }

  /** A script number set as PassIterations (the first property of that
      name) and printed as the decimal integer n is read as n when it fits
      an int, and makes stoi throw when it does not. */
  lemma NumericIterations(obj: JsObject, n: int)
    requires Lookup(obj, "PassIterations") == Some(Some(DecimalText(n)))
    ensures IntMin <= n <= IntMax ==> Iterations(obj) == Count(n)
    ensures n < IntMin || n > IntMax ==> Iterations(obj) == Throws
  {
    StoiDecimal(n);
  }

  /** A script number of magnitude 10^21 or more set as PassIterations
      prints in exponent form, and stoi reads its leading digit: the count
      is a single digit of the number's sign and nothing throws. */
  lemma HugeIterations(obj: JsObject, text: string)
    requires Lookup(obj, "PassIterations") == Some(Some(text)) && ExponentText(text)
    ensures Iterations(obj).Count?
    ensures text[0] == '-' ==> -9 <= Iterations(obj).n <= -1
    ensures text[0] != '-' ==> 1 <= Iterations(obj).n <= 9
  {
    ExponentLeadingDigit(text);
  }

  /** A registration's options are the object's properties in order, each
      value through atoi; among them is PassIterations with the very count
      that allowed the registration. */
  lemma IterationsAmongOptions(registry: seq<PassInfo>, passType: int, obj: JsObject, enumerates: bool)
    requires Decide(registry, passType, obj, enumerates).Registered?
    ensures var kv := Decide(registry, passType, obj, enumerates).kv;
            |kv| == |obj| && forall i :: 0 <= i < |obj| ==> kv[i] == (obj[i].0, Atoi(ToText(obj[i].1)))
    ensures Iterations(obj).Count? && Iterations(obj).n > 0
    ensures ("PassIterations", Iterations(obj).n) in Decide(registry, passType, obj, enumerates).kv
  {
    var kv := Options(obj);
    forall i | 0 <= i < |obj|
      ensures kv[i] == (obj[i].0, Atoi(ToText(obj[i].1)))
    {
      OptionsAt(obj, i);
    }
    var v := Lookup(obj, "PassIterations").value;
    LookupFound(obj, "PassIterations");
    var i :| 0 <= i < |obj| && obj[i] == ("PassIterations", v);
    StoiAgreesWithAtoi(v.value);
    assert kv[i] == ("PassIterations", Iterations(obj).n);
  }

  /** The entry one request adds to the current function, if any. */
  function Added(registry: seq<PassInfo>, r: Request): seq<Entry>
  {
    var o := Decide(registry, r.passType, r.obj, r.enumerates);
    if o.Registered? then [Entry(o.codeName, o.kv)] else []
  }

  /** The entries the first n requests add to one function, in order. */
  function Registrations(registry: seq<PassInfo>, requests: seq<Request>, n: nat): seq<Entry>
    requires n <= |requests|
  {
    if n == 0 then []
    else Registrations(registry, requests, n - 1) + Added(registry, requests[n - 1])
  }

  /** Only requests with a valid type, a positive PassIterations and
      listable properties leave an entry, under their pass's code name. */
  lemma {:induction false} RegistrationsAreValid(registry: seq<PassInfo>, requests: seq<Request>, n: nat)
    requires n <= |requests|
    ensures forall e :: e in Registrations(registry, requests, n) ==>
              exists k :: 0 <= k < n && var r := requests[k];
                0 <= r.passType < |registry| && Iterations(r.obj).Count? && Iterations(r.obj).n > 0 && r.enumerates
                && e == Entry(registry[r.passType].codeName, Options(r.obj))
  {
    if n > 0 {
      RegistrationsAreValid(registry, requests, n - 1);
    }
  }

  /** A call of RegisterFunctionPass the script makes. */
  datatype Request = Request(passType: int, obj: JsObject, enumerates: bool)

  /** A request whose PassIterations makes std::stoi throw.  Nothing in
      RegisterFunctionPass, in the runtime's binding or in RegisterPasses
      catches the exception, so it ends the whole walk. */
  predicate StoiThrows(registry: seq<PassInfo>, r: Request)
  {
    Decide(registry, r.passType, r.obj, r.enumerates).StoiThrew?
  }

  /** How many requests of a RunOnFunction call, from request i on, are
      served in full: all of them, or those before the first that throws. */
  function Served(registry: seq<PassInfo>, requests: seq<Request>, i: nat): (k: nat)
    requires i <= |requests|
    decreases |requests| - i
    ensures i <= k <= |requests|
    ensures forall j :: i <= j < k ==> !StoiThrows(registry, requests[j])
    ensures k < |requests| ==> StoiThrows(registry, requests[k])
  {
    if i == |requests| || StoiThrows(registry, requests[i]) then i
    else Served(registry, requests, i + 1)
  }

  /** What the script does inside RunOnFunction for one function: the
      registration requests it makes, in order.  How the call ends otherwise
      (a value, undefined or a JS exception, which is only logged) changes
      nothing the model holds. */
  datatype CallbackRun = CallbackRun(requests: seq<Request>)

  /** The RunOnFunction call of a function with a body ends in a throw from
      one of its requests. */
  predicate Aborts(registry: seq<PassInfo>, isDeclaration: bool, run: CallbackRun)
  {
    !isDeclaration && Served(registry, run.requests, 0) < |run.requests|
  }

  /** The function, from f on, at which the walk of RegisterPasses is ended
      by a throw, or the number of functions when none throws. */
  function FirstAbort(registry: seq<PassInfo>, isDeclaration: seq<bool>, runs: seq<CallbackRun>, f: nat): (k: nat)
    requires |runs| == |isDeclaration| && f <= |isDeclaration|
    decreases |isDeclaration| - f
    ensures f <= k <= |isDeclaration|
    ensures forall g :: f <= g < k ==> !Aborts(registry, isDeclaration[g], runs[g])
    ensures k < |isDeclaration| ==> Aborts(registry, isDeclaration[k], runs[k])
  {
    if f == |isDeclaration| || Aborts(registry, isDeclaration[f], runs[f]) then f
    else FirstAbort(registry, isDeclaration, runs, f + 1)
  }

  /** The function last set as current by a walk over the first n
      functions: the last of them with a body, or previous if none has one. */
  function LastDefined(isDeclaration: seq<bool>, n: nat, previous: Option<FunctionId>): Option<FunctionId>
    requires n <= |isDeclaration|
  {
    if n == 0 then previous
    else if !isDeclaration[n - 1] then Some(n - 1)
    else LastDefined(isDeclaration, n - 1, previous)
  }

  /** After the walk, current_function is the last function with a body, or
      is left as it was when every function is a declaration. */
  lemma {:induction false} LastDefinedIsLast(isDeclaration: seq<bool>, n: nat, previous: Option<FunctionId>)
    requires n <= |isDeclaration|
    ensures (forall f :: 0 <= f < n ==> isDeclaration[f]) ==> LastDefined(isDeclaration, n, previous) == previous
    ensures forall f :: 0 <= f < n && !isDeclaration[f] ==>
              LastDefined(isDeclaration, n, previous).Some?
              && var last := LastDefined(isDeclaration, n, previous).value;
                 f <= last < n && !isDeclaration[last] && forall g :: last < g < n ==> isDeclaration[g]
  {
    if n > 0 {
      LastDefinedIsLast(isDeclaration, n - 1, previous);
    }
  }

  /** The registration side of the runtime: the pass registry, the metadata
      store and current_function. */
  class Registrar {
    const registry: seq<PassInfo>
    const metadata: Metadata
    var currentFunction: Option<FunctionId>

    constructor (registry: seq<PassInfo>, metadata: Metadata)
      ensures this.registry == registry && this.metadata == metadata && currentFunction == None
    {
      this.registry := registry;
      this.metadata := metadata;
      currentFunction := None;
    }

    /** QuickConfig::RegisterFunctionPass for the current function. */
    method RegisterFunctionPass(passType: int, obj: JsObject, enumerates: bool)
      returns (outcome: Outcome)
      requires currentFunction.Some?
      modifies metadata
      ensures outcome == Decide(registry, passType, obj, enumerates)
      ensures metadata.Of(currentFunction.value)
                == old(metadata.Of(currentFunction.value)) + Added(registry, Request(passType, obj, enumerates))
      ensures forall g :: g != currentFunction.value ==> metadata.Of(g) == old(metadata.Of(g))
      ensures !outcome.Registered? ==> metadata.passes == old(metadata.passes)
    {
      if passType < 0 || passType >= |registry| {
        return InvalidType;
      }
      var pass := registry[passType];
      var count := 0;
      var found: Option<Option<string>> := Lookup(obj, "PassIterations");
      if found.Some? && found.value.Some? {
        var read := Stoi(found.value.value);
        if read.None? {
          return StoiThrew;
        }
        count := read.value;
      }
      if count <= 0 {
        return NotPositive(count);
      }
      if !enumerates {
        return EnumerationFailed;
      }
      var kv: KV := [];
      for i := 0 to |obj|
        invariant kv == Options(obj[..i])
      {
        assert obj[..i + 1][..i] == obj[..i];
        kv := kv + [(obj[i].0, Atoi(ToText(obj[i].1)))];
      }
      assert obj[..|obj|] == obj;
      metadata.AddPass(currentFunction.value, pass.codeName, kv);
      outcome := Registered(pass.codeName, kv);
    }

    /** One RunOnFunction call: f becomes the current function and the
        script's requests are served in order, until one makes stoi throw;
        the requests after it are never made.  threw reports that throw. */
    method RunOnFunction(f: FunctionId, run: CallbackRun) returns (threw: bool)
      modifies this, metadata
      ensures currentFunction == Some(f)
      ensures threw <==> Served(registry, run.requests, 0) < |run.requests|
      ensures metadata.Of(f) == old(metadata.Of(f)) + Registrations(registry, run.requests, Served(registry, run.requests, 0))
      ensures forall g :: g != f ==> metadata.Of(g) == old(metadata.Of(g))
    {
      currentFunction := Some(f);
      var requests := run.requests;
      ghost var p0 := metadata.passes;
      ghost var stop := Served(registry, requests, 0);
      var i := 0;
      assert PassesOf(p0, f) + [] == PassesOf(p0, f);
      while i < |requests|
        invariant i <= stop
        invariant currentFunction == Some(f)
        invariant AddedTo(p0, metadata.passes, f, Registrations(registry, requests, i))
      {
        ghost var p := metadata.passes;
        var outcome := Serve(requests, i);
        AddedToTwice(p0, p, metadata.passes, f, Registrations(registry, requests, i), Added(registry, requests[i]));
        if outcome.StoiThrew? {
          assert i == stop && Added(registry, requests[i]) == [];
          assert Registrations(registry, requests, i) + [] == Registrations(registry, requests, i);
          return true;
        }
        i := i + 1;
      }
      threw := false;
    }

    /** Request i of a RunOnFunction call: the current function gets its
        registration, if any, after those it already has. */
    method Serve(requests: seq<Request>, i: nat) returns (outcome: Outcome)
      requires i < |requests| && currentFunction.Some?
      modifies metadata
      ensures outcome.StoiThrew? <==> StoiThrows(registry, requests[i])
      ensures AddedTo(old(metadata.passes), metadata.passes, currentFunction.value, Added(registry, requests[i]))
    {
      var r := requests[i];
      assert Request(r.passType, r.obj, r.enumerates) == r;
      outcome := RegisterFunctionPass(r.passType, r.obj, r.enumerates);
      forall g | g != currentFunction.value
        ensures PassesOf(metadata.passes, g) == PassesOf(old(metadata.passes), g)
      {
        assert metadata.Of(g) == old(metadata.Of(g));
      }
    }

    /** One step of RegisterPasses: a declaration is skipped, a function
        with a body gets its RunOnFunction call.  threw reports a throw. */
    method Visit(f: FunctionId, isDeclaration: seq<bool>, run: CallbackRun, ghost previous: Option<FunctionId>)
      returns (threw: bool)
      requires f < |isDeclaration| && currentFunction == LastDefined(isDeclaration, f, previous)
      modifies this, metadata
      ensures currentFunction == if isDeclaration[f] then old(currentFunction) else Some(f)
      ensures currentFunction == LastDefined(isDeclaration, f + 1, previous)
      ensures threw <==> Aborts(registry, isDeclaration[f], run)
      ensures AddedTo(old(metadata.passes), metadata.passes, f, VisitAdds(registry, isDeclaration[f], run))
    {
      threw := false;
      if !isDeclaration[f] {
        threw := RunOnFunction(f, run);
        forall g | g != f
          ensures PassesOf(metadata.passes, g) == PassesOf(old(metadata.passes), g)
        {
          assert metadata.Of(g) == old(metadata.Of(g));
        }
      } else {
        assert PassesOf(metadata.passes, f) + [] == PassesOf(metadata.passes, f);
      }
    }

    /** QuickConfig::RegisterPasses: nothing without a RunOnFunction in the
        script; otherwise the functions are walked in module order, each
        function with a body getting the registrations its RunOnFunction
        call makes and declarations none, until a call whose request makes
        stoi throw: the exception leaves the walk there, and the functions
        after it get nothing.  threw reports that throw. */
    method RegisterPasses(isDeclaration: seq<bool>, runs: seq<CallbackRun>, hasCallback: bool) returns (threw: bool)
      requires |runs| == |isDeclaration|
      modifies this, metadata
      ensures !hasCallback ==> !threw && metadata.passes == old(metadata.passes) && currentFunction == old(currentFunction)
      ensures hasCallback ==> (threw <==> FirstAbort(registry, isDeclaration, runs, 0) < |isDeclaration|)
      ensures hasCallback ==> forall f: FunctionId {:trigger metadata.Of(f)} ::
                f < WalkEnd(registry, isDeclaration, runs) ==>
                metadata.Of(f) == old(metadata.Of(f)) + VisitAdds(registry, isDeclaration[f], runs[f])
      ensures hasCallback ==> forall f: FunctionId {:trigger metadata.Of(f)} ::
                f >= WalkEnd(registry, isDeclaration, runs) ==> metadata.Of(f) == old(metadata.Of(f))
      ensures hasCallback ==> currentFunction == LastDefined(isDeclaration, WalkEnd(registry, isDeclaration, runs), old(currentFunction))
    {
      threw := false;
      if !hasCallback {
        return;
      }
      var previous := currentFunction;
      ghost var stop := FirstAbort(registry, isDeclaration, runs, 0);
      ghost var p0 := metadata.passes;
      var f := 0;
      while f < |isDeclaration| && !threw
        invariant f <= |isDeclaration|
        invariant if threw then f == stop + 1 else f <= stop
        invariant Walked(registry, isDeclaration, runs, p0, metadata.passes, f)
        invariant currentFunction == LastDefined(isDeclaration, f, previous)
      {
        ghost var p := metadata.passes;
        threw := Visit(f, isDeclaration, runs[f], previous);
        WalkedStep(registry, isDeclaration, runs, p0, p, metadata.passes, f);
        f := f + 1;
      }
    }
  }

  /** Store p holds what p0 held plus adds on f, and the same on every
      other function. */
  ghost predicate AddedTo(p0: map<FunctionId, seq<Entry>>, p: map<FunctionId, seq<Entry>>, f: FunctionId, adds: seq<Entry>)
  {
    PassesOf(p, f) == PassesOf(p0, f) + adds
    && forall g :: g != f ==> PassesOf(p, g) == PassesOf(p0, g)
  }

  /** Two additions on f in a row are one. */
  lemma AddedToTwice(p0: map<FunctionId, seq<Entry>>, p1: map<FunctionId, seq<Entry>>, p2: map<FunctionId, seq<Entry>>,
                     f: FunctionId, a: seq<Entry>, b: seq<Entry>)
    requires AddedTo(p0, p1, f, a) && AddedTo(p1, p2, f, b)
    ensures AddedTo(p0, p2, f, a + b)
  {
    assert PassesOf(p0, f) + a + b == PassesOf(p0, f) + (a + b);
  }

  /** Store p after the first n functions of the walk: each of them has
      what its visit adds on top of what it had in p0, the others are as in
      p0. */
  ghost predicate Walked(registry: seq<PassInfo>, isDeclaration: seq<bool>, runs: seq<CallbackRun>,
                         p0: map<FunctionId, seq<Entry>>, p: map<FunctionId, seq<Entry>>, n: nat)
    requires |runs| == |isDeclaration| && n <= |isDeclaration|
  {
    (forall g: FunctionId :: g < n ==> PassesOf(p, g) == PassesOf(p0, g) + VisitAdds(registry, isDeclaration[g], runs[g]))
    && (forall g: FunctionId :: g >= n ==> PassesOf(p, g) == PassesOf(p0, g))
  }

  /** One more visit extends the walk by one function. */
  lemma WalkedStep(registry: seq<PassInfo>, isDeclaration: seq<bool>, runs: seq<CallbackRun>,
                   p0: map<FunctionId, seq<Entry>>, p: map<FunctionId, seq<Entry>>, p': map<FunctionId, seq<Entry>>, n: nat)
    requires |runs| == |isDeclaration| && n < |isDeclaration|
    requires Walked(registry, isDeclaration, runs, p0, p, n)
    requires AddedTo(p, p', n, VisitAdds(registry, isDeclaration[n], runs[n]))
    ensures Walked(registry, isDeclaration, runs, p0, p', n + 1)
  {
  }

  /** How many functions the walk of RegisterPasses reaches: up to and
      including the one whose call throws, or all of them. */
  function WalkEnd(registry: seq<PassInfo>, isDeclaration: seq<bool>, runs: seq<CallbackRun>): (n: nat)
    requires |runs| == |isDeclaration|
    ensures n <= |isDeclaration|
  {
    var k := FirstAbort(registry, isDeclaration, runs, 0);
    if k < |isDeclaration| then k + 1 else k
  }

  /** What a function reached by RegisterPasses gets: nothing for a
      declaration, otherwise the registrations of the requests its
      RunOnFunction call makes before any throw. */
  function VisitAdds(registry: seq<PassInfo>, isDeclaration: bool, run: CallbackRun): seq<Entry>
  {
    if isDeclaration then [] else Registrations(registry, run.requests, Served(registry, run.requests, 0))
  }
}
