/** The live iterators of the ParamProvider strategies as objects whose
    fields doNext() updates in place, each proved to do what Step does to the
    corresponding IterState. A generator's current iterator is its position:
    the number of values it has handed out (iterator() resets it to 0).
    The params arrays are sequences assigned anew; the tuple a call hands out
    is a snapshot of them. */
module ProviderIterators {
  import opened Wrappers
  import opened Generators
  import opened Strategies
  import opened PartitionedLemmas

  /** java.util.Random: draws(k) is the k-th value it hands out. */
  class RandomSource {
    const draws: nat -> nat
    var used: nat

    constructor (draws: nat -> nat)
      ensures this.draws == draws && used == 0
    {
      this.draws := draws;
      used := 0;
    }

    function Env(): Env
      reads this
    {
      Strategies.Env(draws, used)
    }

    /** nextInt(bound): IllegalArgumentException for a bound of 0, which
        consumes no draw. */
    method NextInt(bound: nat) returns (r: Result<nat, JavaException>)
      modifies this
      ensures bound == 0 ==> r == Failure(IllegalArgumentException) && used == old(used)
      ensures bound > 0 ==> r == Ok(draws(old(used)) % bound) && used == old(used) + 1
    {
      if bound == 0 {
        return Failure(IllegalArgumentException);
      }
      r := Ok(draws(used) % bound);
      used := used + 1;
    }
  }

  /** allCompleted(): whether every generator has run out at least once. */
  method AllCompleted(completedOnce: array<bool>) returns (b: bool)
    ensures b == AllTrue(completedOnce[..])
  {
    for i := 0 to completedOnce.Length
      invariant forall k :: 0 <= k < i ==> completedOnce[k]
    {
      if !completedOnce[i] {
        return false;
      }
    }
    return true;
  }

  /** EvenAllParamChange's iterator. */
  class EvenAllIterator<T> {
    const gens: seq<Gen<T>>
    const completeWhenAllCycledAtLeastOnce: bool
    const iters: array<nat>
    const completedOnce: array<bool>

    ghost predicate Valid()
      reads this
    {
      iters.Length == |gens| && completedOnce.Length == |gens|
    }

    function State(): IterState<T>
      reads this, iters, completedOnce
    {
      EvenAllIt(gens, completeWhenAllCycledAtLeastOnce, iters[..], completedOnce[..])
    }

    /** iterator(): every generator's iterator is fresh, none completed yet. */
    constructor (gens: seq<Gen<T>>, completeWhenAllCycledAtLeastOnce: bool)
      ensures Valid() && fresh(iters) && fresh(completedOnce)
      ensures Fresh(EvenAll(completeWhenAllCycledAtLeastOnce), gens) == Ok(State())
    {
      this.gens := gens;
      this.completeWhenAllCycledAtLeastOnce := completeWhenAllCycledAtLeastOnce;
      var its := new nat[|gens|];
      for i := 0 to |gens|
        invariant forall k :: 0 <= k < i ==> its[k] == 0
      {
        its[i] := 0;
      }
      iters := its;
      completedOnce := new bool[|gens|](_ => false);
      new;
      assert iters[..] == seq(|gens|, _ => 0);
      assert completedOnce[..] == seq(|gens|, _ => false);
    }

    method DoNext() returns (p: Pull<T>)
      requires Valid()
      modifies iters, completedOnce
      ensures Valid()
      ensures forall env: Env :: Step(old(State()), env) == Stepped(p, State(), env)
    {
      ghost var target := EvenAllLoop(gens, completeWhenAllCycledAtLeastOnce, 0, iters[..], completedOnce[..], []);
      var params: seq<T> := [];
      var i := 0;
      while i < |gens|
        invariant 0 <= i <= |gens| && |params| == i
        invariant EvenAllLoop(gens, completeWhenAllCycledAtLeastOnce, i, iters[..], completedOnce[..], params) == target
      {
        ghost var pos, done := iters[..], completedOnce[..];
        if !gens[i].HasAt(iters[i]) {
          if completeWhenAllCycledAtLeastOnce && !completedOnce[i] {
            completedOnce[i] := true;
            var all := AllCompleted(completedOnce);
            if all {
              return End;
            }
          }
          iters[i] := 0;
        }
        if !gens[i].HasAt(iters[i]) {
          return Throw(NoSuchElementException);
        }
        params := params + [gens[i].At(iters[i])];
        iters[i] := iters[i] + 1;
        assert iters[..] == pos[i := iters[i]];
        i := i + 1;
      }
      return Emit(params);
    }
  }

  /** EvenSingleParamChange's iterator. */
  class EvenSingleIterator<T> {
    const gens: seq<Gen<T>>
    const completeWhenAllCycledAtLeastOnce: bool
    const iters: array<nat>
    var currIterIndex: nat
    const completedOnce: array<bool>
    var firstRun: bool
    var params: seq<T>

    ghost predicate Valid()
      reads this
    {
      && iters.Length == |gens| && completedOnce.Length == |gens| && |params| == |gens|
      && (currIterIndex < |gens| || currIterIndex == 0)
    }

    function State(): IterState<T>
      reads this, iters, completedOnce
    {
      EvenSingleIt(gens, completeWhenAllCycledAtLeastOnce, iters[..], completedOnce[..],
                   currIterIndex, firstRun, params)
    }

    /** The fields once the instance initializer has read every generator's
        first value. */
    constructor (gens: seq<Gen<T>>, completeWhenAllCycledAtLeastOnce: bool, iters: array<nat>, params: seq<T>)
      requires iters.Length == |gens| == |params|
      ensures Valid() && this.iters == iters && fresh(completedOnce)
      ensures State() == EvenSingleIt(gens, completeWhenAllCycledAtLeastOnce, iters[..],
                                      seq(|gens|, _ => false), 0, true, params)
    {
      this.gens := gens;
      this.completeWhenAllCycledAtLeastOnce := completeWhenAllCycledAtLeastOnce;
      this.iters := iters;
      currIterIndex := 0;
      completedOnce := new bool[|gens|](_ => false);
      firstRun := true;
      this.params := params;
      new;
      assert completedOnce[..] == seq(|gens|, _ => false);
    }

    /** iterator(): the instance initializer reads every generator's first
        value and throws NoSuchElementException at the first empty one. */
    static method Open(gens: seq<Gen<T>>, completeWhenAllCycledAtLeastOnce: bool)
      returns (r: Result<EvenSingleIterator<T>, JavaException>)
      ensures r.Failure? <==> Fresh(EvenSingle(completeWhenAllCycledAtLeastOnce), gens).Failure?
      ensures r.Failure? ==> r.error == NoSuchElementException
      ensures r.Ok? ==> fresh(r.value) && fresh(r.value.iters) && fresh(r.value.completedOnce) && r.value.Valid()
      ensures r.Ok? ==> Fresh(EvenSingle(completeWhenAllCycledAtLeastOnce), gens) == Ok(r.value.State())
    {
      var iters := new nat[|gens|];
      var params: seq<T> := [];
      for i := 0 to |gens|
        invariant |params| == i
        invariant forall k :: 0 <= k < i ==> gens[k].HasAt(0) && iters[k] == 1 && params[k] == gens[k].At(0)
      {
        iters[i] := 0;
        if !gens[i].HasAt(0) {
          return Failure(NoSuchElementException);
        }
        params := params + [gens[i].At(0)];
        iters[i] := 1;
      }
      var it := new EvenSingleIterator(gens, completeWhenAllCycledAtLeastOnce, iters, params);
      assert iters[..] == seq(|gens|, _ => 1);
      assert params == seq(|gens|, i requires 0 <= i < |gens| => gens[i].At(0));
      return Ok(it);
    }

    method DoNext() returns (p: Pull<T>)
      requires Valid()
      modifies this, iters, completedOnce
      ensures Valid()
      ensures forall env: Env :: Step(old(State()), env) == Stepped(p, State(), env)
    {
      if firstRun {
        firstRun := false;
        return Emit(params);
      }
      if currIterIndex >= iters.Length {
        // iters[0] on an empty array
        return Throw(IndexOutOfBoundsException);
      }
      var c := currIterIndex;
      ghost var s := State();
      if !gens[c].HasAt(iters[c]) {
        if completeWhenAllCycledAtLeastOnce && !completedOnce[c] {
          completedOnce[c] := true;
          var all := AllCompleted(completedOnce);
          if all {
            return End;
          }
        }
        iters[c] := 0;
        if !gens[c].HasAt(iters[c]) {
          return Throw(NoSuchElementException);
        }
        assert completedOnce[..] == RestartDone(s);
        forall env: Env
          ensures Step(s, env) == EvenSingleTake(State(), c, 0, env)
        {
          EvenSingleRestarts(s, env);
        }
      }
      p := Take(c);
    }

    /** The common tail of doNext: read the next value of generator c and
        move the cursor on. */
    method Take(c: nat) returns (p: Pull<T>)
      requires Valid() && c == currIterIndex && c < |gens| && gens[c].HasAt(iters[c])
      modifies this, iters
      ensures Valid()
      ensures forall env: Env :: EvenSingleTake(old(State()), c, old(iters[c]), env) == Stepped(p, State(), env)
    {
      params := params[c := gens[c].At(iters[c])];
      iters[c] := iters[c] + 1;
      currIterIndex := currIterIndex + 1;
      if currIterIndex >= iters.Length {
        currIterIndex := 0;
      }
      return Emit(params);
    }
  }

  /** RandomSingleParamChange's iterator; `random` is the provider's Random. */
  class RandomSingleIterator<T> {
    const gens: seq<Gen<T>>
    const hash: seq<int> -> int
    const hashSetMaxBeforeReset: int
    const maxDupeGenBeforeQuit: int
    const random: RandomSource
    const iters: array<nat>
    const iterIndices: array<int>
    var seenParamIndexSets: set<int>
    var params: Option<seq<T>>

    ghost predicate Valid()
      reads this
    {
      && iters.Length == |gens| && iterIndices.Length == |gens|
      && (params.Some? ==> |params.value| == |gens|)
    }

    function State(): IterState<T>
      reads this, iters, iterIndices
    {
      RandomIt(gens, hash, hashSetMaxBeforeReset, maxDupeGenBeforeQuit, iters[..], iterIndices[..],
               seenParamIndexSets, params)
    }

    /** iterator(): no generator read yet, all position indices 0, nothing seen. */
    constructor (gens: seq<Gen<T>>, random: RandomSource, hash: seq<int> -> int,
                 hashSetMaxBeforeReset: int, maxDupeGenBeforeQuit: int)
      ensures Valid() && fresh(iters) && fresh(iterIndices) && this.random == random
      ensures Fresh(RandomSingle(hash, hashSetMaxBeforeReset, maxDupeGenBeforeQuit), gens) == Ok(State())
    {
      this.gens := gens;
      this.hash := hash;
      this.hashSetMaxBeforeReset := hashSetMaxBeforeReset;
      this.maxDupeGenBeforeQuit := maxDupeGenBeforeQuit;
      this.random := random;
      iters := new nat[|gens|](_ => 0);
      iterIndices := new int[|gens|](_ => 0);
      seenParamIndexSets := {};
      params := None;
      new;
      assert iters[..] == seq(|gens|, _ => 0);
      assert iterIndices[..] == seq(|gens|, _ => 0);
    }

    /** The first pass of the do-while body: a fresh iterator per generator
        and its first value; NoSuchElementException at the first empty one. */
    method ReadAll() returns (p: Pull<T>)
      requires Valid() && params.None?
      modifies this, iters
      ensures Valid() && iterIndices[..] == old(iterIndices[..])
      ensures RandomMove(old(State()), random.Env()) == Stepped(p, State(), random.Env())
    {
      ghost var s := State();
      var ps: seq<T> := [];
      for i := 0 to iters.Length
        invariant |ps| == i && params.None? && seenParamIndexSets == s.seen
        invariant forall k :: 0 <= k < i ==> gens[k].HasAt(0) && iters[k] == 1 && ps[k] == gens[k].At(0)
        invariant forall k :: i <= k < |gens| ==> iters[k] == s.pos[k]
      {
        iters[i] := 0;
        if !gens[i].HasAt(0) {
          assert iters[..] == RandomMove(s, random.Env()).next.pos;
          return Throw(NoSuchElementException);
        }
        ps := ps + [gens[i].At(0)];
        iters[i] := 1;
      }
      params := Some(ps);
      assert iters[..] == seq(|gens|, _ => 1);
      assert ps == seq(|gens|, i requires 0 <= i < |gens| => gens[i].At(0));
      assert State() == s.(pos := seq(|gens|, _ => 1), current := Some(ps));
      return Emit(ps);
    }

    /** A later pass of the do-while body: one random position moves to its
        generator's next value, restarting an exhausted generator. */
    method ChangeOne() returns (p: Pull<T>)
      requires Valid() && params.Some?
      modifies this, iters, iterIndices, random
      ensures Valid()
      ensures RandomMove(old(State()), old(random.Env())) == Stepped(p, State(), random.Env())
    {
      var index := random.NextInt(iters.Length);
      if index.Failure? {
        return Throw(index.error);
      }
      var idx := index.value;
      if !gens[idx].HasAt(iters[idx]) {
        iters[idx] := 0;
        iterIndices[idx] := -1;
      }
      if !gens[idx].HasAt(iters[idx]) {
        return Throw(NoSuchElementException);
      }
      params := Some(params.value[idx := gens[idx].At(iters[idx])]);
      iters[idx] := iters[idx] + 1;
      iterIndices[idx] := iterIndices[idx] + 1;
      return Emit(params.value);
    }

    method DoNext() returns (p: Pull<T>)
      requires Valid()
      modifies this, iters, iterIndices, random
      ensures Valid()
      ensures Step(old(State()), old(random.Env())) == Stepped(p, State(), random.Env())
    {
      ghost var target := RandomAttempt(State(), random.Env(), 0);
      var currAttempts: nat := 0;
      while true
        invariant Valid()
        invariant RandomAttempt(State(), random.Env(), currAttempts) == target
        decreases maxDupeGenBeforeQuit - currAttempts
      {
        ghost var s0, e0 := State(), random.Env();
        if currAttempts >= maxDupeGenBeforeQuit {
          return End;
        }
        currAttempts := currAttempts + 1;
        if |seenParamIndexSets| >= hashSetMaxBeforeReset {
          seenParamIndexSets := {};
        }
        ghost var cleared := State();
        assert cleared == s0.(seen := if |s0.seen| >= s0.cap then {} else s0.seen);
        if params.None? {
          p := ReadAll();
        } else {
          p := ChangeOne();
        }
        ghost var m := RandomMove(cleared, e0);
        assert m == Stepped(p, State(), random.Env());
        if p.Throw? {
          return;
        }
        var h := hash(iterIndices[..]);
        if h !in seenParamIndexSets {
          seenParamIndexSets := seenParamIndexSets + {h};
          assert State() == m.next.(seen := m.next.seen + {h});
          return;
        }
      }
    }
  }

  // ---------------------------------------------------------------------------
  // Partitioned

  /** The split loop of Partitioned.iterator(): each generator, in order, goes
      to the side the predicate picks, together with its index. */
  method Split<T>(gens: seq<Gen<T>>, pred: (nat, Gen<T>) -> bool)
    returns (trueGens: seq<Gen<T>>, trueIndexList: seq<nat>, falseGens: seq<Gen<T>>, falseIndexList: seq<nat>)
    ensures trueIndexList == Select(gens, pred, true, |gens|)
    ensures falseIndexList == Select(gens, pred, false, |gens|)
    ensures trueGens == Pick(gens, trueIndexList) && falseGens == Pick(gens, falseIndexList)
  {
    trueGens, trueIndexList, falseGens, falseIndexList := [], [], [], [];
    for i := 0 to |gens|
      invariant trueIndexList == Select(gens, pred, true, i) && falseIndexList == Select(gens, pred, false, i)
      invariant trueGens == Pick(gens, trueIndexList) && falseGens == Pick(gens, falseIndexList)
    {
      if pred(i, gens[i]) {
        trueGens := trueGens + [gens[i]];
        trueIndexList := trueIndexList + [i];
      } else {
        falseGens := falseGens + [gens[i]];
        falseIndexList := falseIndexList + [i];
      }
    }
  }

  /** The two copy loops of doNext(): a new array of n nulls, the true side's
      tuple written to the true indices, the false side's to the false ones.
      Every slot ends up filled. */
  method ScatterInto<T>(n: nat, trueIndices: seq<nat>, trueParams: seq<T>, falseIndices: seq<nat>, falseParams: seq<T>)
    returns (r: seq<T>)
    requires Partitions(n, trueIndices, falseIndices)
    requires |trueParams| == |trueIndices| && |falseParams| == |falseIndices|
    ensures r == Scatter(n, trueIndices, trueParams, falseIndices, falseParams)
  {
    var params := new Option<T>[n](_ => None);
    for i := 0 to |trueIndices|
      invariant forall k :: 0 <= k < i ==> params[trueIndices[k]] == Some(trueParams[k])
    {
      params[trueIndices[i]] := Some(trueParams[i]);
    }
    for i := 0 to |falseIndices|
      invariant forall k :: 0 <= k < |trueIndices| ==> params[trueIndices[k]] == Some(trueParams[k])
      invariant forall k :: 0 <= k < i ==> params[falseIndices[k]] == Some(falseParams[k])
    {
      forall k | 0 <= k < |trueIndices|
        ensures trueIndices[k] != falseIndices[i]
      {
        assert trueIndices[k] in trueIndices;
        assert falseIndices[i] in falseIndices;
      }
      params[falseIndices[i]] := Some(falseParams[i]);
    }
    ghost var want := Scatter(n, trueIndices, trueParams, falseIndices, falseParams);
    forall j | 0 <= j < n
      ensures params[j] == Some(want[j])
    {
      if j in trueIndices {
        var k := IndexOf(trueIndices, j);
        IndexOfIncreasing(trueIndices, k);
      } else {
        var k := IndexOf(falseIndices, j);
        IndexOfIncreasing(falseIndices, k);
      }
    }
    r := seq(n, j requires 0 <= j < n && params[j].Some? reads params => params[j].value);
  }

  /** What Partitioned.iterator() returns: the other provider's iterator when
      one side is empty, else the two-sided iterator. */
  datatype Opened<!T> = OneSided(it: IterState<T>) | TwoSided(iter: PartitionedIterator<T>)

  /** Partitioned's two-sided iterator. Its sub-iterators are values; the
      random draws they make are threaded through DoNext as an Env. */
  class PartitionedIterator<T> {
    const arity: nat
    const trueIndices: seq<nat>
    const falseIndices: seq<nat>
    const trueProv: Strategy<T>
    const trueGens: seq<Gen<T>>
    const falseProv: Strategy<T>
    const falseGens: seq<Gen<T>>
    const stopWhenBothHaveEndedOnce: bool
    var trueIter: IterState<T>
    var trueCompletedAtLeastOnce: bool
    var falseIter: IterState<T>
    var falseCompletedAtLeastOnce: bool

    function State(): IterState<T>
      reads this
    {
      PartIt(arity, trueIndices, falseIndices, trueProv, trueGens, falseProv, falseGens,
             stopWhenBothHaveEndedOnce, trueIter, trueCompletedAtLeastOnce, falseIter, falseCompletedAtLeastOnce)
    }

    ghost predicate Valid()
      reads this
    {
      Strategies.Valid(State())
    }

    constructor (arity: nat, trueIndices: seq<nat>, trueProv: Strategy<T>, trueGens: seq<Gen<T>>, trueIter: IterState<T>,
                 falseIndices: seq<nat>, falseProv: Strategy<T>, falseGens: seq<Gen<T>>, falseIter: IterState<T>,
                 stopWhenBothHaveEndedOnce: bool)
      requires Strategies.Valid(PartIt(arity, trueIndices, falseIndices, trueProv, trueGens, falseProv, falseGens,
                                       stopWhenBothHaveEndedOnce, trueIter, false, falseIter, false))
      ensures Valid()
      ensures State() == PartIt(arity, trueIndices, falseIndices, trueProv, trueGens, falseProv, falseGens,
                                stopWhenBothHaveEndedOnce, trueIter, false, falseIter, false)
    {
      this.arity := arity;
      this.trueIndices := trueIndices;
      this.falseIndices := falseIndices;
      this.trueProv := trueProv;
      this.trueGens := trueGens;
      this.falseProv := falseProv;
      this.falseGens := falseGens;
      this.stopWhenBothHaveEndedOnce := stopWhenBothHaveEndedOnce;
      this.trueIter := trueIter;
      trueCompletedAtLeastOnce := false;
      this.falseIter := falseIter;
      falseCompletedAtLeastOnce := false;
    }

    /** Partitioned.iterator(). */
    static method Open(gens: seq<Gen<T>>, pred: (nat, Gen<T>) -> bool, onTrue: Strategy<T>, onFalse: Strategy<T>,
                       stopWhenBothHaveEndedOnce: bool)
      returns (r: Result<Opened<T>, JavaException>)
      ensures var want := FreshPartitioned(pred, onTrue, onFalse, stopWhenBothHaveEndedOnce, gens);
        && (r.Failure? <==> want.Failure?)
        && (r.Failure? ==> r.error == want.error)
        && (r.Ok? && r.value.OneSided? ==> want == Ok(r.value.it))
        && (r.Ok? && r.value.TwoSided? ==> fresh(r.value.iter) && r.value.iter.Valid() && want == Ok(r.value.iter.State()))
    {
      var trueGens, trueIndexList, falseGens, falseIndexList := Split(gens, pred);
      SelectPartitions(gens, pred);
      if trueGens == [] {
        var it :- Fresh(onFalse, falseGens);
        return Ok(OneSided(it));
      }
      if falseGens == [] {
        var it :- Fresh(onTrue, trueGens);
        return Ok(OneSided(it));
      }
      var trueIter :- Fresh(onTrue, trueGens);
      var falseIter :- Fresh(onFalse, falseGens);
      var iter := new PartitionedIterator(|gens|, trueIndexList, onTrue, trueGens, trueIter,
                                          falseIndexList, onFalse, falseGens, falseIter, stopWhenBothHaveEndedOnce);
      return Ok(TwoSided(iter));
    }

    method DoNext(env: Env) returns (p: Pull<T>, env': Env)
      requires Valid()
      modifies this
      ensures Valid()
      ensures Step(old(State()), env) == Stepped(p, State(), env')
    {
      ghost var s := State();
      assert Step(s, env) == PartStep(s, env);
      var t := HasNextSide(trueIter, trueProv, trueGens, env);
      trueIter := t.it;
      if t.restarted && !trueCompletedAtLeastOnce {
        trueCompletedAtLeastOnce := true;
      }
      if t.pull.Throw? {
        return t.pull, t.env;
      }
      p, env' := FalseSide(t.restarted, t.pull, t.env);
    }

    /** hasNext() on the false side, then the rest of doNext(). */
    method FalseSide(trueRestarted: bool, truePull: Pull<T>, env: Env) returns (p: Pull<T>, env': Env)
      requires Valid()
      requires !trueRestarted ==> truePull.Emit? && |truePull.tuple| == Arity(trueIter)
      modifies this
      ensures Valid()
      ensures PartFalse(old(State()), trueRestarted, truePull, env) == Stepped(p, State(), env')
    {
      var f := HasNextSide(falseIter, falseProv, falseGens, env);
      falseIter := f.it;
      if f.restarted && !falseCompletedAtLeastOnce {
        falseCompletedAtLeastOnce := true;
      }
      if f.pull.Throw? {
        return f.pull, f.env;
      }
      p, env' := Take(trueRestarted, truePull, f.restarted, f.pull, f.env);
    }

    /** The rest of doNext() once both sides have a next tuple: the stop
        rule, next() on both sides, and the tuples copied into place. */
    method Take(trueRestarted: bool, truePull: Pull<T>, falseRestarted: bool, falsePull: Pull<T>, env: Env)
      returns (p: Pull<T>, env': Env)
      requires Valid()
      requires !trueRestarted ==> truePull.Emit? && |truePull.tuple| == Arity(trueIter)
      requires !falseRestarted ==> falsePull.Emit? && |falsePull.tuple| == Arity(falseIter)
      modifies this
      ensures Valid()
      ensures PartTake(old(State()), trueRestarted, truePull, falseRestarted, falsePull, env) == Stepped(p, State(), env')
    {
      ghost var s := State();
      if stopWhenBothHaveEndedOnce && trueCompletedAtLeastOnce && falseCompletedAtLeastOnce {
        return End, env;
      }
      var trueParams := TakeSide(trueRestarted, truePull, trueIter, env);
      trueIter := trueParams.next;
      if !trueParams.pull.Emit? {
        return trueParams.pull, trueParams.env;
      }
      PartTakeContinues(s, trueRestarted, truePull, falseRestarted, falsePull, env);
      p, env' := TakeFalse(trueParams.pull.tuple, falseRestarted, falsePull, trueParams.env);
    }

    /** next() on the false side, then the two copy loops. */
    method TakeFalse(trueParams: seq<T>, falseRestarted: bool, falsePull: Pull<T>, env: Env)
      returns (p: Pull<T>, env': Env)
      requires Valid() && |trueParams| == |trueIndices|
      requires !falseRestarted ==> falsePull.Emit? && |falsePull.tuple| == Arity(falseIter)
      modifies this
      ensures Valid()
      ensures PartTakeFalse(old(State()), trueParams, falseRestarted, falsePull, env) == Stepped(p, State(), env')
    {
      var falseParams := TakeSide(falseRestarted, falsePull, falseIter, env);
      falseIter := falseParams.next;
      if !falseParams.pull.Emit? {
        return falseParams.pull, falseParams.env;
      }
      var params := ScatterInto(arity, trueIndices, trueParams, falseIndices, falseParams.pull.tuple);
      return Emit(params), falseParams.env;
    }
  }
}
