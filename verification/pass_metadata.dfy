/**
 * The per-function pass metadata that the configuration layer and the
 * annotation parser fill in and the passes later read: for every function,
 * the list of passes to run on it, each with its code name and its
 * (key, value) options, in the order they were added.
 *
 * The metadata store and the annotation argument reader are declared
 * elsewhere in the repository; here AddPass appends, and an annotation's
 * arguments are a queue of integers.
 */
module PassMetadata {

  /** The options of one registered pass, in order. */
  type KV = seq<(string, int)>

  datatype Entry = Entry(codeName: string, kv: KV)

  /** Functions are named by an index into their module. */
  type FunctionId = nat

  /** The passes a store registers on f: none when f has no entry. */
  function PassesOf(passes: map<FunctionId, seq<Entry>>, f: FunctionId): seq<Entry>
  {
    if f in passes then passes[f] else []
  }

  class Metadata {
    var passes: map<FunctionId, seq<Entry>>

    constructor ()
      ensures passes == map[]
    {
      passes := map[];
    }

    /** The passes registered on f so far. */
    function Of(f: FunctionId): seq<Entry>
      reads this
    {
      PassesOf(passes, f)
    }

    /** ZyroxPassesMetadata::AddPass: one more entry for f, nothing else changes. */
    method AddPass(f: FunctionId, codeName: string, kv: KV)
      modifies this
      ensures Of(f) == old(Of(f)) + [Entry(codeName, kv)]
      ensures forall g :: g != f ==> Of(g) == old(Of(g))
    {
      passes := passes[f := Of(f) + [Entry(codeName, kv)]];
    }
  }

  /** The arguments of an annotation, read left to right. */
  class AnnotationArgs {
    var rest: seq<int>

    constructor (args: seq<int>)
      ensures rest == args
    {
      rest := args;
    }

    /** The next argument, or d when none is left. */
    method NextOrDefault(d: int) returns (v: int)
      modifies this
      ensures old(rest) == [] ==> v == d && rest == []
      ensures old(rest) != [] ==> v == old(rest)[0] && rest == old(rest)[1..]
    {
      if rest == [] {
        v := d;
      } else {
        v := rest[0];
        rest := rest[1..];
      }
    }
  }
}
