/** The ParamProvider base class: its generators, the feedback loop that
    hands every execution result back to them, and close(). Each generator's
    onComplete and close calls are recorded in order, which is all the model
    can observe of them. */
module Providers {
  import opened Wrappers
  import opened Generators
  import opened Strategies

  function Min(a: nat, b: nat): nat
  {
    if a <= b then a else b
  }

  /** The onComplete calls onResult makes: generator i receives the result,
      its own index and result.params[i], for every i that params reaches. */
  function Deliveries<T>(result: ExecutionResult<T>, n: nat): (r: seq<Feedback<T, T>>)
    ensures |r| == Min(n, |result.params|)
  {
    seq(Min(n, |result.params|), i requires 0 <= i < Min(n, |result.params|) => Feedback(result, i, result.params[i]))
  }

  /** A tuple an iterator hands out, fed back as the execution's params,
      reaches every generator: onResult throws only for a params array
      shorter than the generator array, and iterator tuples never are. */
  lemma EmittedTupleReachesEveryGenerator<T>(s: IterState<T>, env: Env, failed: bool)
    requires Valid(s) && Step(s, env).pull.Emit?
    ensures var result := ExecutionResult(Step(s, env).pull.tuple, failed);
      && |Deliveries(result, Arity(s))| == Arity(s)
      && forall i :: 0 <= i < Arity(s) ==> Deliveries(result, Arity(s))[i].value == Step(s, env).pull.tuple[i]
  {
  }

  /** Through a mapNotNull generator the base generator sees the parameter
      mapped back with fnFrom. */
  lemma DeliveriesMapped<T, U, V>(result: ExecutionResult<T>, n: nat, k: nat, from: T -> V)
    requires k < n <= |result.params|
    ensures MappedFeedback(Deliveries(result, n)[k], from) == Feedback(result, k, from(result.params[k]))
  {
  }

  class Provider<T> {
    const paramGenerators: seq<Gen<T>>
    const strategy: Strategy<T>
    /** The onComplete calls the generators have received, in order. */
    var delivered: seq<Feedback<T, T>>
    /** The indices of the generators whose close() has run, in order. */
    var closed: seq<nat>

    constructor (strategy: Strategy<T>, paramGenerators: seq<Gen<T>>)
      ensures this.strategy == strategy && this.paramGenerators == paramGenerators
      ensures delivered == [] && closed == []
    {
      this.strategy := strategy;
      this.paramGenerators := paramGenerators;
      delivered := [];
      closed := [];
    }

    /** iterator(): the strategy's iterator over this provider's generators. */
    function Iterator(): (r: Result<IterState<T>, JavaException>)
      ensures r.Ok? ==> Valid(r.value) && Arity(r.value) == |paramGenerators|
    {
      Fresh(strategy, paramGenerators)
    }

    /** onResult: every generator's onComplete in index order; when params
        is shorter than the generator array, the loop throws
        ArrayIndexOutOfBoundsException at the first missing index. */
    method OnResult(result: ExecutionResult<T>) returns (thrown: Option<JavaException>)
      modifies this
      ensures delivered == old(delivered) + Deliveries(result, |paramGenerators|)
      ensures thrown == if |result.params| < |paramGenerators| then Some(IndexOutOfBoundsException) else None
      ensures closed == old(closed)
    {
      ghost var before := delivered;
      for i := 0 to |paramGenerators|
        invariant i <= |result.params| && closed == old(closed)
        invariant delivered == before + seq(i, k requires 0 <= k < i => Feedback(result, k, result.params[k]))
      {
        if i >= |result.params| {
          assert Deliveries(result, |paramGenerators|) == seq(i, k requires 0 <= k < i => Feedback(result, k, result.params[k]));
          return Some(IndexOutOfBoundsException);
        }
        delivered := delivered + [Feedback(result, i, result.params[i])];
      }
      return None;
    }

    /** close(): every generator's close(), in index order. */
    method Close()
      modifies this
      ensures closed == old(closed) + seq(|paramGenerators|, i => i)
      ensures delivered == old(delivered)
    {
      ghost var before := closed;
      for i := 0 to |paramGenerators|
        invariant closed == before + seq(i, k => k) && delivered == old(delivered)
      {
        closed := closed + [i];
      }
    }
  }
}
