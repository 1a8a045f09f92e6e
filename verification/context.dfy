/**
 * `EvaluationContext`: the variables of a running Wordy program, kept in first-insertion order,
 * together with the tracer that is told about the interpreter's progress. The tracer is
 * modelled as a log: a recording tracer appends every notification, the default one ignores it.
 */
module Context {
  import opened Wrappers
  import opened OrderedMap
  import opened Ast

  /** A `LinkedHashMap<String, Double>`: each name at most once, in first-insertion order. */
  type Vars = m: OMap<string, real> | Valid(m) witness []

  /** `Tracer.Phase`. */
  datatype Phase = Started | Completed

  /** One call of `Tracer.traceNode`: the node, the phase, and the result (`null` as `None`). */
  datatype Event = Event(node: Node, phase: Phase, result: Option<real>)

  /** The no-op tracer of the default constructor, or one that records what it is told. */
  datatype Tracer = Silent | Recording

  datatype Context = Context(vars: Vars, tracer: Tracer, log: seq<Event>)

  /** `new EvaluationContext()`: no variables, the no-op tracer. */
  const Fresh: Context := Context([], Silent, [])

  /** `new EvaluationContext(tracer)` for a recording tracer. */
  const Traced: Context := Context([], Recording, [])

  /** The value a variable map gives a name: the stored value, or 0 for a name never set. */
  function Read(vars: Vars, name: string): (v: real)
    ensures name !in Keys(vars) ==> v == 0.0
    ensures name in Keys(vars) ==> OrderedMap.Get(vars, name) == Some(v)
  {
    match OrderedMap.Get(vars, name)
    case Some(x) => x
    case None => 0.0
  }

  /** `get(name)`. */
  function Get(ctx: Context, name: string): (v: real)
    ensures name !in Keys(ctx.vars) ==> v == 0.0
    ensures name in Keys(ctx.vars) ==> OrderedMap.Get(ctx.vars, name) == Some(v)
  {
    Read(ctx.vars, name)
  }

  /** `set(name, value)`: `LinkedHashMap.put`. */
  function Set(ctx: Context, name: string, value: real): (r: Context)
    ensures r.tracer == ctx.tracer && r.log == ctx.log
    ensures Get(r, name) == value
    ensures forall other :: other != name ==> Get(r, other) == Get(ctx, other)
    ensures name in Keys(ctx.vars) ==> Keys(r.vars) == Keys(ctx.vars)
    ensures name !in Keys(ctx.vars) ==> Keys(r.vars) == Keys(ctx.vars) + [name]
  {
    var vars := Put(ctx.vars, name, value);
    assert forall other :: other != name ==> OrderedMap.Get(vars, other) == OrderedMap.Get(ctx.vars, other);
    ctx.(vars := vars)
  }

  /** `allVariables()`: the names with their values, in first-set order. */
  function AllVariables(ctx: Context): (r: OMap<string, real>)
    ensures Valid(r)
    ensures forall name :: name in Keys(r) ==> Get(ctx, name) == OrderedMap.Get(r, name).value
  {
    ctx.vars
  }

  /** `trace(node, phase, result)`: forwarded to the tracer; only a recording tracer keeps it. */
  function Trace(ctx: Context, node: Node, phase: Phase, result: Option<real>): (r: Context)
    ensures r.vars == ctx.vars && r.tracer == ctx.tracer
    ensures ctx.tracer.Recording? ==> r.log == ctx.log + [Event(node, phase, result)]
    ensures ctx.tracer.Silent? ==> r.log == ctx.log
  {
    if ctx.tracer.Recording? then ctx.(log := ctx.log + [Event(node, phase, result)]) else ctx
  }

  // ------------------------------------------------ properties

  /** A name that was never set reads as 0. */
  lemma LemmaGetUnset(name: string)
    ensures Get(Fresh, name) == 0.0 && Get(Traced, name) == 0.0
  {
  }

  /** Setting a name twice keeps its place; setting new names appends them in order. */
  lemma LemmaSetOrder(ctx: Context, a: string, b: string, x: real, y: real)
    requires a != b && a !in Keys(ctx.vars) && b !in Keys(ctx.vars)
    ensures Keys(Set(Set(Set(ctx, a, x), b, y), a, y).vars) == Keys(ctx.vars) + [a, b]
    ensures Get(Set(Set(Set(ctx, a, x), b, y), a, y), a) == y
  {
    assert Keys(ctx.vars) + [a] + [b] == Keys(ctx.vars) + [a, b];
  }

  /** Two contexts in which every name reads the same. */
  ghost predicate SameValues(c: Context, d: Context)
  {
    forall name :: Get(c, name) == Get(d, name)
  }

  /** Writing the same value twice is the same as writing it once. */
  lemma LemmaSetIdempotent(ctx: Context, name: string, v: real)
    ensures Set(Set(ctx, name, v), name, v) == Set(ctx, name, v)
  {
    var once := Set(ctx, name, v);
    var i := IndexOf(once.vars, name);
    LemmaGetUnique(once.vars, i);
  }

  /** Writes to different names commute in their effect on values. */
  lemma LemmaSetCommutes(ctx: Context, a: string, b: string, x: real, y: real)
    requires a != b
    ensures SameValues(Set(Set(ctx, a, x), b, y), Set(Set(ctx, b, y), a, x))
  {
  }
}
