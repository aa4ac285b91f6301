/** Properties of Partitioned: the split of the generators, the delegation
    when one side is empty, the scatter of the two sides' tuples and the
    stop rule. */
module PartitionedLemmas {
  import opened Wrappers
  import opened Generators
  import opened Strategies

  /** In an increasing list, the value at k is found at k. */
  lemma IndexOfIncreasing(s: seq<nat>, k: nat)
    requires Increasing(s) && k < |s|
    ensures IndexOf(s, s[k]) == k
  {
  }

  /** Scatter puts the k-th true-side value at trueIdx[k] and the k-th
      false-side value at falseIdx[k]. */
  lemma ScatterPlaces<T>(n: nat, ti: seq<nat>, tt: seq<T>, fi: seq<nat>, ft: seq<T>)
    requires Partitions(n, ti, fi) && |tt| == |ti| && |ft| == |fi|
    ensures forall k :: 0 <= k < |ti| ==> Scatter(n, ti, tt, fi, ft)[ti[k]] == tt[k]
    ensures forall k :: 0 <= k < |fi| ==> Scatter(n, ti, tt, fi, ft)[fi[k]] == ft[k]
  {
    var r := Scatter(n, ti, tt, fi, ft);
    forall k | 0 <= k < |ti|
      ensures r[ti[k]] == tt[k]
    {
      IndexOfIncreasing(ti, k);
    }
    forall k | 0 <= k < |fi|
      ensures r[fi[k]] == ft[k]
    {
      assert fi[k] in fi;
      assert fi[k] !in ti;
      IndexOfIncreasing(fi, k);
    }
  }

  /** The split loop when the predicate sends every generator to one side:
      that side gets all indices in order, the other none. */
  lemma {:induction false} SelectOneSide<T>(gens: seq<Gen<T>>, pred: (nat, Gen<T>) -> bool, want: bool, k: nat)
    requires k <= |gens|
    requires forall j :: 0 <= j < k ==> pred(j, gens[j]) == want
    ensures Select(gens, pred, want, k) == seq(k, j => j)
    ensures Select(gens, pred, !want, k) == []
    decreases k
  {
    if k > 0 {
      SelectOneSide(gens, pred, want, k - 1);
      assert seq(k, j => j) == seq(k - 1, j => j) + [k - 1];
    }
  }

  lemma PickAll<T>(gens: seq<Gen<T>>)
    ensures Pick(gens, seq(|gens|, j => j)) == gens
  {
  }

  /** Partitioned.iterator() with every generator on the false side returns
      the false provider's iterator over all the generators. */
  lemma PartitionedAllFalse<T>(pred: (nat, Gen<T>) -> bool, onTrue: Strategy<T>, onFalse: Strategy<T>,
                               stop: bool, gens: seq<Gen<T>>)
    requires forall j :: 0 <= j < |gens| ==> !pred(j, gens[j])
    ensures Fresh(Partitioned(pred, onTrue, onFalse, stop), gens) == Fresh(onFalse, gens)
  {
    SelectOneSide(gens, pred, false, |gens|);
    PickAll(gens);
    assert Select(gens, pred, true, |gens|) == [];
    assert Pick(gens, Select(gens, pred, false, |gens|)) == gens;
    assert Fresh(Partitioned(pred, onTrue, onFalse, stop), gens) == FreshPartitioned(pred, onTrue, onFalse, stop, gens);
  }

  /** With every generator (and at least one) on the true side, it returns
      the true provider's iterator over all the generators. */
  lemma PartitionedAllTrue<T>(pred: (nat, Gen<T>) -> bool, onTrue: Strategy<T>, onFalse: Strategy<T>,
                              stop: bool, gens: seq<Gen<T>>)
    requires |gens| > 0 && forall j :: 0 <= j < |gens| ==> pred(j, gens[j])
    ensures Fresh(Partitioned(pred, onTrue, onFalse, stop), gens) == Fresh(onTrue, gens)
  {
    SelectOneSide(gens, pred, true, |gens|);
    PickAll(gens);
    assert Select(gens, pred, true, |gens|) != [];
    assert Select(gens, pred, false, |gens|) == [];
    assert Pick(gens, Select(gens, pred, true, |gens|)) == gens;
    assert Fresh(Partitioned(pred, onTrue, onFalse, stop), gens) == FreshPartitioned(pred, onTrue, onFalse, stop, gens);
  }

  lemma FreshIsFreshPartitioned<T>(pred: (nat, Gen<T>) -> bool, onTrue: Strategy<T>, onFalse: Strategy<T>,
                                   stop: bool, gens: seq<Gen<T>>)
    ensures Fresh(Partitioned(pred, onTrue, onFalse, stop), gens) == FreshPartitioned(pred, onTrue, onFalse, stop, gens)
  {
  }

  lemma FreshTwoSided<T>(pred: (nat, Gen<T>) -> bool, onTrue: Strategy<T>, onFalse: Strategy<T>,
                         stop: bool, gens: seq<Gen<T>>)
    requires Select(gens, pred, true, |gens|) != [] && Select(gens, pred, false, |gens|) != []
    ensures var ti := Select(gens, pred, true, |gens|);
      var fi := Select(gens, pred, false, |gens|);
      var tf := Fresh(onTrue, Pick(gens, ti));
      var ff := Fresh(onFalse, Pick(gens, fi));
      FreshPartitioned(pred, onTrue, onFalse, stop, gens) ==
        if tf.Failure? then Failure(tf.error)
        else if ff.Failure? then Failure(ff.error)
        else Ok(PartIt(|gens|, ti, fi, onTrue, Pick(gens, ti), onFalse, Pick(gens, fi), stop,
                       tf.value, false, ff.value, false))
  {
  }

  /** When both sides are non-empty, iterator() builds the two-sided iterator
      from the split: each index on exactly the side the predicate picks,
      each side's provider over its own generators, neither side completed.
      It throws exactly when one side's provider throws in its iterator(). */
  lemma PartitionedFresh<T>(pred: (nat, Gen<T>) -> bool, onTrue: Strategy<T>, onFalse: Strategy<T>,
                            stop: bool, gens: seq<Gen<T>>)
    requires exists j :: 0 <= j < |gens| && pred(j, gens[j])
    requires exists j :: 0 <= j < |gens| && !pred(j, gens[j])
    ensures var r := Fresh(Partitioned(pred, onTrue, onFalse, stop), gens);
      r.Ok? <==> Fresh(onTrue, Pick(gens, Select(gens, pred, true, |gens|))).Ok? &&
                 Fresh(onFalse, Pick(gens, Select(gens, pred, false, |gens|))).Ok?
    ensures var r := Fresh(Partitioned(pred, onTrue, onFalse, stop), gens);
      r.Ok? ==> (r.value.PartIt? && r.value.arity == |gens| && r.value.stop == stop
        && r.value.trueProv == onTrue && r.value.falseProv == onFalse
        && !r.value.trueDone && !r.value.falseDone
        && (forall j :: 0 <= j < |gens| ==> (j in r.value.trueIdx <==> pred(j, gens[j])))
        && (forall j :: 0 <= j < |gens| ==> (j in r.value.falseIdx <==> !pred(j, gens[j])))
        && r.value.trueGens == Pick(gens, r.value.trueIdx) && r.value.falseGens == Pick(gens, r.value.falseIdx))
  {
    var ti := Select(gens, pred, true, |gens|);
    var fi := Select(gens, pred, false, |gens|);
    SelectSpec(gens, pred, true, |gens|);
    SelectSpec(gens, pred, false, |gens|);
    var j1 :| 0 <= j1 < |gens| && pred(j1, gens[j1]);
    var j2 :| 0 <= j2 < |gens| && !pred(j2, gens[j2]);
    assert j1 in ti && j2 in fi;
    FreshIsFreshPartitioned(pred, onTrue, onFalse, stop, gens);
    FreshTwoSided(pred, onTrue, onFalse, stop, gens);
  }

  /** hasNext() on one side: a side restarts exactly when its iterator
      returns null; otherwise it caches that call's outcome. A restart
      installs the provider's new iterator, or throws what its iterator()
      throws. */
  lemma HasNextSideSpec<T>(it: IterState<T>, prov: Strategy<T>, gens: seq<Gen<T>>, env: Env)
    requires Valid(it) && Arity(it) == |gens| && Rank(it) <= Height(prov)
    ensures var r, t := HasNextSide(it, prov, gens, env), Step(it, env);
      && (r.restarted <==> t.pull.End?)
      && (!r.restarted ==> r.pull == t.pull && r.it == t.next)
      && (r.restarted && Fresh(prov, gens).Ok? ==> r.it == Fresh(prov, gens).value && r.pull == End)
      && (r.restarted && Fresh(prov, gens).Failure? ==> r.pull == Throw(Fresh(prov, gens).error))
      && r.env == t.env
  {
  }

  /** next() on one side: the cached tuple, or on a restarted side the first
      outcome of its new iterator, with a null turned into
      NoSuchElementException. */
  lemma TakeSideSpec<T>(restarted: bool, cached: Pull<T>, it: IterState<T>, env: Env)
    requires Valid(it)
    requires !restarted ==> cached.Emit? && |cached.tuple| == Arity(it)
    ensures var r, t := TakeSide(restarted, cached, it, env), Step(it, env);
      && (!restarted ==> r == Stepped(cached, it, env))
      && (restarted ==>
            && r.next == t.next && r.env == t.env
            && r.pull == (if t.pull.End? then Throw(NoSuchElementException) else t.pull))
  {
  }

  /** next() on the false side and the copy: an emitted tuple is the true
      side's tuple and the false side's next() scattered back. */
  lemma TakeFalseScatters<T>(s: IterState<T>, trueTuple: seq<T>, fRestart: bool, fPull: Pull<T>, env: Env)
    requires s.PartIt? && Valid(s) && |trueTuple| == |s.trueIdx|
    requires !fRestart ==> fPull.Emit? && |fPull.tuple| == Arity(s.falseIt)
    ensures var r, f2 := PartTakeFalse(s, trueTuple, fRestart, fPull, env), TakeSide(fRestart, fPull, s.falseIt, env);
      && (r.pull.Emit? <==> f2.pull.Emit?)
      && r.next.trueIt == s.trueIt && r.next.falseIt == f2.next
      && (r.pull.Emit? ==> r.pull.tuple == Scatter(s.arity, s.trueIdx, trueTuple, s.falseIdx, f2.pull.tuple))
  {
  }

  /** The stop test and both next() calls, true side first: the call emits
      exactly when the stream is not over and both sides' next() emit. */
  lemma TakeEmits<T>(s: IterState<T>, tRestart: bool, tPull: Pull<T>, fRestart: bool, fPull: Pull<T>, env: Env)
    requires s.PartIt? && Valid(s)
    requires !tRestart ==> tPull.Emit? && |tPull.tuple| == Arity(s.trueIt)
    requires !fRestart ==> fPull.Emit? && |fPull.tuple| == Arity(s.falseIt)
    ensures var r := PartTake(s, tRestart, tPull, fRestart, fPull, env);
      var t2 := TakeSide(tRestart, tPull, s.trueIt, env);
      var f2 := TakeSide(fRestart, fPull, s.falseIt, t2.env);
      r.pull.Emit? <==> !(s.stop && s.trueDone && s.falseDone) && t2.pull.Emit? && f2.pull.Emit?
  {
    if !(s.stop && s.trueDone && s.falseDone) {
      var t2 := TakeSide(tRestart, tPull, s.trueIt, env);
      if t2.pull.Emit? {
        TakeFalseScatters(s.(trueIt := t2.next), t2.pull.tuple, fRestart, fPull, t2.env);
      }
    }
  }

  /** An emitted tuple is the scatter of the two sides' next() tuples. */
  lemma TakeScatters<T>(s: IterState<T>, tRestart: bool, tPull: Pull<T>, fRestart: bool, fPull: Pull<T>, env: Env)
    requires s.PartIt? && Valid(s)
    requires !tRestart ==> tPull.Emit? && |tPull.tuple| == Arity(s.trueIt)
    requires !fRestart ==> fPull.Emit? && |fPull.tuple| == Arity(s.falseIt)
    ensures var r := PartTake(s, tRestart, tPull, fRestart, fPull, env);
      var t2 := TakeSide(tRestart, tPull, s.trueIt, env);
      var f2 := TakeSide(fRestart, fPull, s.falseIt, t2.env);
      r.pull.Emit? ==>
        && t2.pull.Emit? && f2.pull.Emit?
        && r.next.trueIt == t2.next && r.next.falseIt == f2.next
        && r.pull.tuple == Scatter(s.arity, s.trueIdx, t2.pull.tuple, s.falseIdx, f2.pull.tuple)
  {
    if !(s.stop && s.trueDone && s.falseDone) {
      var t2 := TakeSide(tRestart, tPull, s.trueIt, env);
      if t2.pull.Emit? {
        TakeFalseScatters(s.(trueIt := t2.next), t2.pull.tuple, fRestart, fPull, t2.env);
      }
    }
  }

  /** The false side's hasNext() and the rest: the stream ends exactly when
      the stop flag is set and both sides have completed, counting a restart
      of the false side in this call; completion flags are never cleared. */
  lemma PartFalseStops<T>(s: IterState<T>, tRestart: bool, tPull: Pull<T>, env: Env)
    requires s.PartIt? && Valid(s)
    requires !tRestart ==> tPull.Emit? && |tPull.tuple| == Arity(s.trueIt)
    ensures var r := PartFalse(s, tRestart, tPull, env);
      && r.next.PartIt?
      && (r.pull.End? <==> s.stop && r.next.trueDone && r.next.falseDone && !r.pull.Throw?)
      && (s.trueDone ==> r.next.trueDone) && (s.falseDone ==> r.next.falseDone)
  {
  }

  /** From the false side's hasNext() on, an emitted tuple is the scatter of
      the two sides' next() tuples. */
  lemma PartFalseSteps<T>(s: IterState<T>, tRestart: bool, tPull: Pull<T>, env: Env)
    requires s.PartIt? && Valid(s)
    requires !tRestart ==> tPull.Emit? && |tPull.tuple| == Arity(s.trueIt)
    ensures var r := PartFalse(s, tRestart, tPull, env);
      var f := HasNextSide(s.falseIt, s.falseProv, s.falseGens, env);
      r.pull.Emit? ==>
        && !f.pull.Throw?
        && (var t2 := TakeSide(tRestart, tPull, s.trueIt, f.env);
            var f2 := TakeSide(f.restarted, f.pull, f.it, t2.env);
            && t2.pull.Emit? && f2.pull.Emit?
            && r.next.trueIt == t2.next && r.next.falseIt == f2.next
            && r.pull.tuple == Scatter(s.arity, s.trueIdx, t2.pull.tuple, s.falseIdx, f2.pull.tuple))
  {
    var f := HasNextSide(s.falseIt, s.falseProv, s.falseGens, env);
    var s1 := s.(falseIt := f.it, falseDone := s.falseDone || f.restarted);
    if !f.pull.Throw? {
      assert PartFalse(s, tRestart, tPull, env) == PartTake(s1, tRestart, tPull, f.restarted, f.pull, f.env);
      TakeScatters(s1, tRestart, tPull, f.restarted, f.pull, f.env);
    }
  }

  /** One doNext() of the two-sided iterator: it returns null exactly when
      the stop flag is set and, after this call's hasNext() on both sides,
      each side has been found exhausted at least once; completion flags
      never reset; an emitted tuple holds, at trueIndices[i], slot i of the
      true side's next() and, at falseIndices[j], slot j of the false side's
      next(), each side's hasNext() and next() running in the order of the
      code. */
  lemma PartitionedStep<T>(s: IterState<T>, env: Env)
    requires s.PartIt? && Valid(s)
    ensures var r := Step(s, env);
      var t := HasNextSide(s.trueIt, s.trueProv, s.trueGens, env);
      var f := HasNextSide(s.falseIt, s.falseProv, s.falseGens, t.env);
      && r.next.PartIt?
      && (r.pull.End? <==> s.stop && r.next.trueDone && r.next.falseDone && !r.pull.Throw?)
      && (s.trueDone ==> r.next.trueDone) && (s.falseDone ==> r.next.falseDone)
      && (r.pull.Emit? ==>
            && !t.pull.Throw? && !f.pull.Throw?
            && (var t2 := TakeSide(t.restarted, t.pull, t.it, f.env);
                var f2 := TakeSide(f.restarted, f.pull, f.it, t2.env);
                && t2.pull.Emit? && f2.pull.Emit?
                && r.next.trueIt == t2.next && r.next.falseIt == f2.next
                && (forall k :: 0 <= k < |s.trueIdx| ==> r.pull.tuple[s.trueIdx[k]] == t2.pull.tuple[k])
                && (forall k :: 0 <= k < |s.falseIdx| ==> r.pull.tuple[s.falseIdx[k]] == f2.pull.tuple[k])))
  {
    assert Step(s, env) == PartStep(s, env);
    var t := HasNextSide(s.trueIt, s.trueProv, s.trueGens, env);
    var s0 := s.(trueIt := t.it, trueDone := s.trueDone || t.restarted);
    if !t.pull.Throw? {
      assert PartStep(s, env) == PartFalse(s0, t.restarted, t.pull, t.env);
      PartFalseStops(s0, t.restarted, t.pull, t.env);
      PartFalseSteps(s0, t.restarted, t.pull, t.env);
      var r := Step(s, env);
      if r.pull.Emit? {
        var f := HasNextSide(s.falseIt, s.falseProv, s.falseGens, t.env);
        var t2 := TakeSide(t.restarted, t.pull, t.it, f.env);
        var f2 := TakeSide(f.restarted, f.pull, f.it, t2.env);
        ScatterPlaces(s.arity, s.trueIdx, t2.pull.tuple, s.falseIdx, f2.pull.tuple);
      }
    }
  }

  /** When the stream is not over and neither side runs out, doNext()
      places the true side's next tuple at the true indices and the false
      side's at the false indices: the two sub-iterators' own doNext()
      outcomes, true side first. */
  lemma PartitionedSteadyStep<T>(s: IterState<T>, env: Env)
    requires s.PartIt? && Valid(s) && !(s.stop && s.trueDone && s.falseDone)
    requires Step(s.trueIt, env).pull.Emit? && Step(s.falseIt, Step(s.trueIt, env).env).pull.Emit?
    ensures var r, t := Step(s, env), Step(s.trueIt, env);
      var f := Step(s.falseIt, t.env);
      && r.pull.Emit? && r.env == f.env
      && r.next.trueIt == t.next && r.next.falseIt == f.next
      && r.next.trueDone == s.trueDone && r.next.falseDone == s.falseDone
      && (forall k :: 0 <= k < |s.trueIdx| ==> r.pull.tuple[s.trueIdx[k]] == t.pull.tuple[k])
      && (forall k :: 0 <= k < |s.falseIdx| ==> r.pull.tuple[s.falseIdx[k]] == f.pull.tuple[k])
  {
    var t := HasNextSide(s.trueIt, s.trueProv, s.trueGens, env);
    HasNextSideSpec(s.trueIt, s.trueProv, s.trueGens, env);
    var s0 := s.(trueIt := t.it);
    assert Step(s, env) == PartFalse(s0, false, t.pull, t.env);
    var f := HasNextSide(s.falseIt, s.falseProv, s.falseGens, t.env);
    HasNextSideSpec(s.falseIt, s.falseProv, s.falseGens, t.env);
    var s1 := s0.(falseIt := f.it);
    assert PartFalse(s0, false, t.pull, t.env) == PartTake(s1, false, t.pull, false, f.pull, f.env);
    TakeEmits(s1, false, t.pull, false, f.pull, f.env);
    PartitionedStep(s, env);
  }

  /** Without the stop flag the two-sided iterator never returns null. */
  lemma PartitionedNoStopNeverEnds<T>(s: IterState<T>, env: Env)
    requires s.PartIt? && Valid(s) && !s.stop
    ensures !Step(s, env).pull.End?
  {
    PartitionedStep(s, env);
  }
}
