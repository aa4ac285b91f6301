/** Properties of EvenAllParamChange: every tuple advances every position by
    one value, restarting an exhausted generator; with the completion flag the
    stream has exactly as many tuples as the largest generator has values;
    without it the stream never ends. */
module EvenAllLemmas {
  import opened Wrappers
  import opened Generators
  import opened Strategies
  import opened Arithmetic

  /** Without the completion flag, doNext never returns null. */
  lemma {:induction false} EvenAllLoopNoStop<T>(gens: seq<Gen<T>>, i: nat, pos: seq<nat>, done: seq<bool>, acc: seq<T>)
    requires i <= |gens| && |pos| == |gens| && |done| == |gens| && |acc| == i
    ensures !EvenAllLoop(gens, false, i, pos, done, acc).0.End?
    decreases |gens| - i
  {
    if i < |gens| {
      if gens[i].HasAt(pos[i]) {
        EvenAllLoopNoStop(gens, i + 1, pos[i := pos[i] + 1], done, acc + [gens[i].At(pos[i])]);
      } else if gens[i].HasAt(0) {
        EvenAllLoopNoStop(gens, i + 1, pos[i := 1], done, acc + [gens[i].At(0)]);
      }
    }
  }

  lemma EvenAllNoStopNeverEnds<T>(s: IterState<T>, env: Env)
    requires s.EvenAllIt? && Valid(s) && !s.stop
    ensures !Step(s, env).pull.End?
  {
    EvenAllLoopNoStop(s.gens, 0, s.pos, s.done, []);
  }

  // ---------------------------------------------------------------------------
  // The stream from iterator() over finite non-empty generators

  predicate NonEmptyFinite<T>(gens: seq<Gen<T>>)
  {
    forall i :: 0 <= i < |gens| ==> gens[i].Finite? && |gens[i].values| > 0
  }

  function Size<T>(gens: seq<Gen<T>>, i: nat): nat
    requires NonEmptyFinite(gens) && i < |gens|
  {
    |gens[i].values|
  }

  /** The largest generator size, and the last generator of that size. */
  ghost function MaxSize<T>(gens: seq<Gen<T>>): (r: nat)
    requires NonEmptyFinite(gens) && |gens| > 0
    ensures forall i :: 0 <= i < |gens| ==> Size(gens, i) <= r
    ensures exists i :: 0 <= i < |gens| && Size(gens, i) == r
    decreases |gens|
  {
    var last := Size(gens, |gens| - 1);
    if |gens| == 1 then last
    else
      var m := MaxSize(gens[..|gens| - 1]);
      assert forall i :: 0 <= i < |gens| - 1 ==> Size(gens[..|gens| - 1], i) == Size(gens, i);
      if last >= m then last
      else
        var w :| 0 <= w < |gens| - 1 && Size(gens[..|gens| - 1], w) == m;
        assert Size(gens, w) == m;
        m
  }

  ghost function LastMax<T>(gens: seq<Gen<T>>): (r: nat)
    requires NonEmptyFinite(gens) && |gens| > 0
    ensures r < |gens| && Size(gens, r) == MaxSize(gens)
    ensures forall j :: r < j < |gens| ==> Size(gens, j) < MaxSize(gens)
    decreases |gens|
  {
    var n := |gens|;
    if n == 1 || Size(gens, n - 1) >= MaxSize(gens[..n - 1]) then n - 1
    else
      assert forall i :: 0 <= i < n - 1 ==> Size(gens[..n - 1], i) == Size(gens, i);
      LastMax(gens[..n - 1])
  }

  /** Values taken from a size-k generator's current iterator after t tuples. */
  function PosAfter(t: nat, k: nat): nat
    requires k > 0
  {
    if t == 0 then 0 else (t - 1) % k + 1
  }

  /** The iterator's counters after t tuples for positions below i, after
      t - 1 tuples from position i on: the state inside the for loop. */
  function MixPos<T>(gens: seq<Gen<T>>, t: nat, i: nat): (r: seq<nat>)
    requires NonEmptyFinite(gens)
    ensures |r| == |gens|
  {
    seq(|gens|, j requires 0 <= j < |gens| => PosAfter(if j < i then t + 1 else t, Size(gens, j)))
  }

  function MixDone<T>(gens: seq<Gen<T>>, stop: bool, t: nat, i: nat): (r: seq<bool>)
    requires NonEmptyFinite(gens)
    ensures |r| == |gens|
  {
    seq(|gens|, j requires 0 <= j < |gens| => stop && (if j < i then t + 1 else t) > Size(gens, j))
  }

  /** The iterator after t tuples. */
  function EvenAllAfter<T>(gens: seq<Gen<T>>, stop: bool, t: nat): IterState<T>
    requires NonEmptyFinite(gens)
  {
    EvenAllIt(gens, stop, MixPos(gens, t, 0), MixDone(gens, stop, t, 0))
  }

  /** Tuple number t (from 0): value t mod k_i of each generator i. */
  function EvenAllTuple<T>(gens: seq<Gen<T>>, t: nat): (r: seq<T>)
    requires NonEmptyFinite(gens)
    ensures |r| == |gens|
  {
    seq(|gens|, i requires 0 <= i < |gens| => gens[i].values[t % Size(gens, i)])
  }

  lemma MixEnds<T>(gens: seq<Gen<T>>, stop: bool, t: nat)
    requires NonEmptyFinite(gens)
    ensures MixPos(gens, t, |gens|) == MixPos(gens, t + 1, 0)
    ensures MixDone(gens, stop, t, |gens|) == MixDone(gens, stop, t + 1, 0)
  {
  }

  /** One pass of the for loop at position i when generator i is not the
      one whose completion ends the stream: it takes value t mod k_i and
      moves the state one position on. The witness m is a position whose
      completion flag is still clear after this pass. */
  lemma EvenAllIndexStep<T>(gens: seq<Gen<T>>, stop: bool, t: nat, i: nat, m: nat, acc: seq<T>)
    requires NonEmptyFinite(gens) && i < |gens| && |acc| == i && m < |gens|
    requires !stop || (m == i && t < Size(gens, i)) || (m != i && !MixDone(gens, stop, t, i)[m])
    ensures EvenAllLoop(gens, stop, i, MixPos(gens, t, i), MixDone(gens, stop, t, i), acc)
         == EvenAllLoop(gens, stop, i + 1, MixPos(gens, t, i + 1), MixDone(gens, stop, t, i + 1),
                        acc + [EvenAllTuple(gens, t)[i]])
  {
    var k := Size(gens, i);
    var pos, done := MixPos(gens, t, i), MixDone(gens, stop, t, i);
    var p := pos[i];
    var v := gens[i].values[t % k];
    if t == 0 {
      assert 0 % k == 0;
      assert pos[i := 1] == MixPos(gens, t, i + 1);
      assert done == MixDone(gens, stop, t, i + 1);
    } else {
      ModStep(t, k);
      if p < k {
        if t == k {
          DivModUnique(t - 1, k, 0, k - 1);
        }
        assert pos[i := p + 1] == MixPos(gens, t, i + 1);
        assert done == MixDone(gens, stop, t, i + 1);
      } else {
        if t < k {
          DivModUnique(t - 1, k, 0, t - 1);
        }
        var done' := if stop && !done[i] then done[i := true] else done;
        assert done' == MixDone(gens, stop, t, i + 1);
        if stop && !done[i] {
          assert !done'[m];
        }
        assert pos[i := 1] == MixPos(gens, t, i + 1);
      }
    }
  }

  /** The for loop from position i on, in a tuple before the last one: it
      completes the tuple and leaves the state after t + 1 tuples. */
  lemma {:induction false} EvenAllLoopEmits<T>(gens: seq<Gen<T>>, stop: bool, t: nat, i: nat, m: nat)
    requires NonEmptyFinite(gens) && i <= |gens| && m < |gens|
    requires stop ==> t < Size(gens, m)
    ensures EvenAllLoop(gens, stop, i, MixPos(gens, t, i), MixDone(gens, stop, t, i), EvenAllTuple(gens, t)[..i])
         == (Emit(EvenAllTuple(gens, t)), MixPos(gens, t + 1, 0), MixDone(gens, stop, t + 1, 0))
    decreases |gens| - i
  {
    var tuple := EvenAllTuple(gens, t);
    if i == |gens| {
      MixEnds(gens, stop, t);
      assert tuple[..i] == tuple;
    } else {
      var acc := tuple[..i];
      EvenAllIndexStep(gens, stop, t, i, m, acc);
      assert acc + [tuple[i]] == tuple[..i + 1];
      EvenAllLoopEmits(gens, stop, t, i + 1, m);
    }
  }

  /** In the call after the last tuple the loop returns null when it reaches
      the last generator of the largest size, the one generator whose
      completion flag is still clear. */
  lemma {:induction false} EvenAllLoopEnds<T>(gens: seq<Gen<T>>, i: nat, acc: seq<T>)
    requires NonEmptyFinite(gens) && |gens| > 0 && |acc| == i && i <= LastMax(gens)
    ensures var t := MaxSize(gens);
      EvenAllLoop(gens, true, i, MixPos(gens, t, i), MixDone(gens, true, t, i), acc).0 == End
    decreases |gens| - i
  {
    var t, l := MaxSize(gens), LastMax(gens);
    var pos, done := MixPos(gens, t, i), MixDone(gens, true, t, i);
    if i < l {
      EvenAllIndexStep(gens, true, t, i, l, acc);
      EvenAllLoopEnds(gens, i + 1, acc + [EvenAllTuple(gens, t)[i]]);
    } else {
      DivModUnique(t - 1, t, 0, t - 1);
      assert !gens[i].HasAt(pos[i]);
      assert AllTrue(done[i := true]);
    }
  }

  lemma EvenAllStepEmits<T>(gens: seq<Gen<T>>, stop: bool, t: nat, m: nat, env: Env)
    requires NonEmptyFinite(gens) && m < |gens| && (stop ==> t < Size(gens, m))
    ensures Step(EvenAllAfter(gens, stop, t), env) == Stepped(Emit(EvenAllTuple(gens, t)), EvenAllAfter(gens, stop, t + 1), env)
  {
    EvenAllLoopEmits(gens, stop, t, 0, m);
  }

  /** Before round MaxSize the stream hands out this round's tuple and goes on
      from the next round. */
  lemma EvenAllRunCons<T>(gens: seq<Gen<T>>, t: nat, fuel: nat, env: Env)
    requires NonEmptyFinite(gens) && |gens| > 0 && t < MaxSize(gens) && fuel > 0
    ensures Run(EvenAllAfter(gens, true, t), env, fuel)
         == [Emit(EvenAllTuple(gens, t))] + Run(EvenAllAfter(gens, true, t + 1), env, fuel - 1)
  {
    EvenAllStepEmits(gens, true, t, LastMax(gens), env);
    RunEmits(EvenAllAfter(gens, true, t), env, fuel);
  }

  /** Tuples t to t + n - 1, each handed out. */
  function EvenAllEmits<T>(gens: seq<Gen<T>>, t: nat, n: nat): (r: seq<Pull<T>>)
    requires NonEmptyFinite(gens)
    ensures |r| == n
  {
    seq(n, j requires 0 <= j < n => Emit(EvenAllTuple(gens, t + j)))
  }

  lemma EvenAllEmitsCons<T>(gens: seq<Gen<T>>, t: nat, n: nat)
    requires NonEmptyFinite(gens) && n > 0
    ensures EvenAllEmits(gens, t, n) == [Emit(EvenAllTuple(gens, t))] + EvenAllEmits(gens, t + 1, n - 1)
  {
    var e, e' := EvenAllEmits(gens, t, n), EvenAllEmits(gens, t + 1, n - 1);
    forall j | 0 < j < n
      ensures e[j] == e'[j - 1]
    {
      assert t + j == t + 1 + (j - 1);
    }
  }

  /** After MaxSize tuples the stream ends. */
  lemma EvenAllRunEnds<T>(gens: seq<Gen<T>>, env: Env)
    requires NonEmptyFinite(gens) && |gens| > 0
    ensures Run(EvenAllAfter(gens, true, MaxSize(gens)), env, 1) == [End]
  {
    EvenAllLoopEnds(gens, 0, []);
    var s := EvenAllAfter(gens, true, MaxSize(gens));
    assert Step(s, env).pull == End;
    RunStops(s, env, 1);
  }

  /** The stream from the iterator after t tuples, t at most the largest size. */
  lemma {:induction false} EvenAllRunFrom<T>(gens: seq<Gen<T>>, t: nat, env: Env)
    requires NonEmptyFinite(gens) && |gens| > 0 && t <= MaxSize(gens)
    ensures Run(EvenAllAfter(gens, true, t), env, MaxSize(gens) + 1 - t) == EvenAllEmits(gens, t, MaxSize(gens) - t) + [End]
    decreases MaxSize(gens) - t
  {
    if t < MaxSize(gens) {
      EvenAllRunFrom(gens, t + 1, env);
      EvenAllRunStep(gens, t, env);
    } else {
      EvenAllRunEnds(gens, env);
    }
  }

  /** One round of the induction: from round t + 1's stream to round t's. */
  lemma EvenAllRunStep<T>(gens: seq<Gen<T>>, t: nat, env: Env)
    requires NonEmptyFinite(gens) && |gens| > 0 && t < MaxSize(gens)
    requires Run(EvenAllAfter(gens, true, t + 1), env, MaxSize(gens) - t) == EvenAllEmits(gens, t + 1, MaxSize(gens) - t - 1) + [End]
    ensures Run(EvenAllAfter(gens, true, t), env, MaxSize(gens) + 1 - t) == EvenAllEmits(gens, t, MaxSize(gens) - t) + [End]
  {
    var M := MaxSize(gens);
    var e := Emit(EvenAllTuple(gens, t));
    var rest := EvenAllEmits(gens, t + 1, M - t - 1);
    EvenAllRunCons(gens, t, M + 1 - t, env);
    EvenAllEmitsCons(gens, t, M - t);
    assert [e] + (rest + [End]) == ([e] + rest) + [End];
  }

  /** With the completion flag (the default) and n >= 1 finite non-empty
      generators, the stream is exactly max(k_i) tuples, tuple t holding
      value t mod k_i of generator i, and then ends. */
  lemma EvenAllStream<T>(gens: seq<Gen<T>>, env: Env)
    requires NonEmptyFinite(gens) && |gens| > 0
    ensures Fresh(EvenAll(true), gens) == Ok(EvenAllAfter(gens, true, 0))
    ensures Run(EvenAllAfter(gens, true, 0), env, MaxSize(gens) + 1)
         == seq(MaxSize(gens), t requires 0 <= t < MaxSize(gens) => Emit(EvenAllTuple(gens, t))) + [End]
  {
    assert MixPos(gens, 0, 0) == seq(|gens|, _ => 0);
    assert MixDone(gens, true, 0, 0) == seq(|gens|, _ => false);
    EvenAllRunFrom(gens, 0, env);
    assert EvenAllEmits(gens, 0, MaxSize(gens)) == seq(MaxSize(gens), t requires 0 <= t < MaxSize(gens) => Emit(EvenAllTuple(gens, t)));
  }

  /** Without the flag, the stream cycles every generator for as long as it
      is read. */
  lemma {:induction false} EvenAllNoStopStream<T>(gens: seq<Gen<T>>, t: nat, fuel: nat, env: Env)
    requires NonEmptyFinite(gens) && |gens| > 0
    ensures Run(EvenAllAfter(gens, false, t), env, fuel)
         == seq(fuel, j requires 0 <= j < fuel => Emit(EvenAllTuple(gens, t + j)))
    decreases fuel
  {
    if fuel > 0 {
      EvenAllStepEmits(gens, false, t, 0, env);
      EvenAllNoStopStream(gens, t + 1, fuel - 1, env);
    }
  }
}
