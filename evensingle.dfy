/** Properties of EvenSingleParamChange: the first tuple is every generator's
    first value; each later tuple changes only the position under the
    round-robin cursor; the stream ends only when the generator under the
    cursor runs out for the first time while every other one already has. */
module EvenSingleLemmas {
  import opened Wrappers
  import opened Generators
  import opened Strategies
  import opened Arithmetic
  import opened EvenAllLemmas

  /** iterator() takes every generator's first value, and throws
      NoSuchElementException when some generator has none. */
  lemma EvenSingleFresh<T>(stop: bool, gens: seq<Gen<T>>, env: Env)
    ensures Fresh(EvenSingle(stop), gens).Ok? <==> forall i :: 0 <= i < |gens| ==> gens[i].HasAt(0)
    ensures Fresh(EvenSingle(stop), gens).Failure? ==> Fresh(EvenSingle(stop), gens).error == NoSuchElementException
    ensures Fresh(EvenSingle(stop), gens).Ok? ==>
      var s := Fresh(EvenSingle(stop), gens).value;
      && s.EvenSingleIt? && s.curr == 0 && s.firstRun
      && Step(s, env).pull == Emit(seq(|gens|, i requires 0 <= i < |gens| => gens[i].At(0)))
      && !Step(s, env).next.firstRun && Step(s, env).next.curr == 0
  {
  }

  /** A call after the first: the tuple differs from the previous one only
      under the cursor, where it holds the next value of that generator (its
      first value again after a restart); the cursor moves on cyclically. */
  lemma EvenSingleLaterStep<T>(s: IterState<T>, env: Env)
    requires s.EvenSingleIt? && Valid(s) && !s.firstRun && |s.gens| > 0
    ensures var r := Step(s, env); var c := s.curr;
      r.pull.Emit? ==>
        && (forall j :: 0 <= j < |s.gens| && j != c ==> r.pull.tuple[j] == s.params[j])
        && r.pull.tuple[c] == s.gens[c].At(if s.gens[c].HasAt(s.pos[c]) then s.pos[c] else 0)
        && r.next.params == r.pull.tuple
        && r.next.curr == (c + 1) % |s.gens|
  {
    var c := s.curr;
    var r := Step(s, env);
    assert r == EvenSingleStep(s, env);
    if s.gens[c].HasAt(s.pos[c]) {
      EvenSingleTakes(s, c, s.pos[c], env);
    } else if r.pull.Emit? {
      var s' := EvenSingleIt(s.gens, s.stop, s.pos, RestartDone(s), c, false, s.params);
      assert r == EvenSingleTake(s', c, 0, env);
      EvenSingleTakes(s', c, 0, env);
    }
  }

  /** Taking value p of generator c changes the tuple at c alone and moves the
      cursor on cyclically. */
  lemma EvenSingleTakes<T>(s: IterState<T>, c: nat, p: nat, env: Env)
    requires s.EvenSingleIt? && Valid(s) && c < |s.gens| && s.gens[c].HasAt(p)
    ensures var r := EvenSingleTake(s, c, p, env);
      && (forall j :: 0 <= j < |s.gens| && j != c ==> r.pull.tuple[j] == s.params[j])
      && r.pull.tuple[c] == s.gens[c].At(p)
      && r.next.params == r.pull.tuple
      && r.next.curr == (c + 1) % |s.gens|
  {
    CursorWraps(c, |s.gens|);
  }

  /** The stream ends exactly when, after the first call, the generator under
      the cursor is exhausted for the first time and every other generator
      has already been found exhausted; only with the completion flag. */
  lemma EvenSingleEnds<T>(s: IterState<T>, env: Env)
    requires s.EvenSingleIt? && Valid(s)
    ensures var c := s.curr;
      Step(s, env).pull.End? <==>
        && !s.firstRun && |s.gens| > 0 && s.stop
        && !s.gens[c].HasAt(s.pos[c]) && !s.done[c]
        && (forall j :: 0 <= j < |s.gens| && j != c ==> s.done[j])
  {
    var c := s.curr;
    if !s.firstRun && |s.gens| > 0 && s.stop && !s.done[c] {
      var done' := s.done[c := true];
      if AllTrue(done') {
        forall j | 0 <= j < |s.gens| && j != c
          ensures s.done[j]
        {
          assert done'[j];
        }
      }
      if forall j :: 0 <= j < |s.gens| && j != c ==> s.done[j] {
        assert forall k :: 0 <= k < |s.gens| ==> done'[k];
      }
    }
  }

  predicate AllInfinite<T>(gens: seq<Gen<T>>)
  {
    forall i :: 0 <= i < |gens| ==> gens[i].Infinite?
  }

  /** Over infinite generators every call hands out a tuple: the stream
      neither ends nor throws (for n >= 1; with n = 0 only the first call
      succeeds). */
  lemma EvenSingleInfiniteNeverEnds<T>(s: IterState<T>, env: Env)
    requires s.EvenSingleIt? && Valid(s) && AllInfinite(s.gens)
    ensures Step(s, env).pull.Emit? <==> s.firstRun || |s.gens| > 0
    ensures Step(s, env).next.gens == s.gens
  {
  }

  // ---------------------------------------------------------------------------
  // With the completion flag, over finite non-empty generators, the stream ends

  /** How many calls the cursor needs to get from c to i, going round. */
  function Ahead(i: nat, c: nat, n: nat): (r: nat)
    requires i < n && c < n
    ensures r < n && (r == 0 <==> i == c)
  {
    if i >= c then i - c else i + n - c
  }

  /** A state after the first call, with the completion flag, over finite
      non-empty generators whose positions have not run past their ends. */
  ghost predicate Settled<T>(s: IterState<T>)
  {
    && s.EvenSingleIt? && Valid(s) && NonEmptyFinite(s.gens) && |s.gens| > 0
    && !s.firstRun && s.stop
    && forall i :: 0 <= i < |s.gens| ==> s.pos[i] <= Size(s.gens, i)
  }

  /** The number of calls, this one being the first, until the call that
      finds generator i exhausted: its remaining values, one per round of the
      cursor, and then the cursor's way to it. */
  ghost function Due<T>(s: IterState<T>, i: nat): (r: nat)
    requires Settled(s) && i < |s.gens|
    ensures r >= 1
  {
    (Size(s.gens, i) - s.pos[i]) * |s.gens| + Ahead(i, s.curr, |s.gens|) + 1
  }

  /** A generator not yet found exhausted. */
  ghost predicate Pending<T>(s: IterState<T>, i: nat)
    requires s.EvenSingleIt? && Valid(s)
  {
    i < |s.gens| && !s.done[i]
  }

  /** The cursor after generator c. */
  function NextCursor(c: nat, n: nat): nat
  {
    if c + 1 >= n then 0 else c + 1
  }

  lemma AheadStep(i: nat, c: nat, n: nat)
    requires i < n && c < n
    ensures i != c ==> Ahead(i, NextCursor(c, n), n) == Ahead(i, c, n) - 1
    ensures i == c ==> Ahead(i, NextCursor(c, n), n) == n - 1
  {
  }

  /** A call that moves the cursor on one and leaves generator i's position
      alone brings i one call closer, and so does one that reads generator c's
      next value. */
  lemma DueStep<T>(s: IterState<T>, s': IterState<T>, i: nat)
    requires Settled(s) && Settled(s') && s'.gens == s.gens && i < |s.gens|
    requires s'.curr == NextCursor(s.curr, |s.gens|)
    requires i != s.curr ==> s'.pos[i] == s.pos[i]
    requires i == s.curr ==> s'.pos[i] == s.pos[i] + 1
    ensures Due(s', i) == Due(s, i) - 1
  {
    var n, v := |s.gens|, Size(s.gens, i) - s.pos[i];
    AheadStep(i, s.curr, n);
    if i == s.curr {
      assert (v - 1) * n + n == v * n;
    }
  }

  /** The call reads the next value of the generator under the cursor. */
  lemma CountdownTake<T>(s: IterState<T>, env: Env)
    requires Settled(s) && s.gens[s.curr].HasAt(s.pos[s.curr])
    ensures var r := Step(s, env);
      && r.pull.Emit? && Settled(r.next) && r.next.gens == s.gens && r.next.done == s.done
      && forall i :: 0 <= i < |s.gens| ==> Due(r.next, i) == Due(s, i) - 1
  {
    var c := s.curr;
    var r := Step(s, env);
    assert r == EvenSingleTake(s, c, s.pos[c], env);
    forall i | 0 <= i < |s.gens|
      ensures Due(r.next, i) == Due(s, i) - 1
    {
      DueStep(s, r.next, i);
    }
  }

  /** The generator under the cursor is exhausted and the stream goes on: it
      restarts, takes its first value, and is no longer pending. */
  lemma CountdownRestart<T>(s: IterState<T>, env: Env)
    requires Settled(s) && !s.gens[s.curr].HasAt(s.pos[s.curr])
    requires !(!s.done[s.curr] && AllTrue(RestartDone(s)))
    ensures var r := Step(s, env);
      && r.pull.Emit? && Settled(r.next) && r.next.gens == s.gens && r.next.done == RestartDone(s)
      && forall i :: 0 <= i < |s.gens| && i != s.curr ==> Due(r.next, i) == Due(s, i) - 1
  {
    var c := s.curr;
    EvenSingleRestarts(s, env);
    var r := Step(s, env);
    forall i | 0 <= i < |s.gens| && i != c
      ensures Due(r.next, i) == Due(s, i) - 1
    {
      DueStep(s, r.next, i);
    }
  }

  /** The generator under the cursor is exhausted and was the last pending
      one: the stream ends. */
  lemma CountdownEnd<T>(s: IterState<T>, env: Env)
    requires Settled(s) && !s.gens[s.curr].HasAt(s.pos[s.curr])
    requires !s.done[s.curr] && AllTrue(RestartDone(s))
    ensures Step(s, env).pull.End?
  {
    assert Step(s, env) == EvenSingleStep(s, env);
  }

  /** One call from a settled state with a pending generator: it never
      throws; it ends the stream exactly when every pending generator is due
      now; otherwise the state stays settled, a generator stops being pending
      only when it was due now, some generator stays pending, and every
      pending generator comes one call closer. */
  lemma EvenSingleCountdown<T>(s: IterState<T>, env: Env)
    requires Settled(s) && exists i :: Pending(s, i)
    ensures var r := Step(s, env);
      && (r.pull.Emit? || r.pull.End?)
      && (r.pull.End? <==> forall i :: Pending(s, i) ==> Due(s, i) == 1)
      && (r.pull.Emit? ==>
            && Settled(r.next) && r.next.gens == s.gens
            && (exists i :: Pending(r.next, i))
            && (forall i :: Pending(r.next, i) ==> Pending(s, i) && Due(r.next, i) == Due(s, i) - 1)
            && (forall i :: Pending(s, i) && Due(s, i) > 1 ==> Pending(r.next, i)))
  {
    var c, n := s.curr, |s.gens|;
    var r := Step(s, env);
    var j :| Pending(s, j);
    if s.gens[c].HasAt(s.pos[c]) {
      CountdownTake(s, env);
      assert Due(s, c) > 1;
      assert Pending(r.next, j);
    } else {
      assert Due(s, c) == 1;
      if !s.done[c] && AllTrue(RestartDone(s)) {
        CountdownEnd(s, env);
        forall i: nat | Pending(s, i)
          ensures Due(s, i) == 1
        {
          assert RestartDone(s)[i];
        }
      } else {
        CountdownRestart(s, env);
        var k :| 0 <= k < n && !RestartDone(s)[k];
        assert Pending(r.next, k) && k != c;
        assert Due(s, k) > 1;
      }
    }
  }

  /** In a settled state, D is the latest Due among the pending generators. */
  ghost predicate LatestDue<T>(s: IterState<T>, D: nat)
  {
    && Settled(s)
    && (forall i :: Pending(s, i) ==> Due(s, i) <= D)
    && (exists i :: Pending(s, i) && Due(s, i) == D)
  }

  /** From a settled state whose latest-due pending generator is due in D
      calls, the stream is D - 1 more tuples and then the end. */
  lemma EvenSingleRunFrom<T>(s: IterState<T>, env: Env, D: nat)
    requires LatestDue(s, D)
    ensures EndsAt(Run(s, env, D), D)
  {
    forall s': IterState<T>, e: Env, d: nat | LatestDue(s', d)
      ensures CountsDown(LatestDue, s', e, d)
    {
      CountdownBound(s', e, d);
    }
    RunCountsDown(LatestDue, s, env, D);
  }

  /** One call moves the latest deadline D one call closer, or ends the
      stream when D is 1. */
  lemma CountdownBound<T>(s: IterState<T>, env: Env, D: nat)
    requires LatestDue(s, D)
    ensures Valid(s) && D >= 1
    ensures var r := Step(s, env);
      && (r.pull.End? ==> D == 1)
      && (!r.pull.End? ==> D >= 2 && r.pull.Emit? && LatestDue(r.next, D - 1))
  {
    var j :| Pending(s, j) && Due(s, j) == D;
    EvenSingleCountdown(s, env);
    var r := Step(s, env);
    if !r.pull.End? {
      assert Pending(r.next, j) && Due(r.next, j) == D - 1;
    }
  }

  /** The length of the stream before its end: (MaxSize - 1) * n + LastMax + 1
      tuples, where LastMax is the last of the longest generators. */
  ghost function EvenSingleLength<T>(gens: seq<Gen<T>>): (r: nat)
    requires NonEmptyFinite(gens) && |gens| > 0
    ensures r >= 1
  {
    MulMono(0, MaxSize(gens) - 1, |gens|);
    (MaxSize(gens) - 1) * |gens| + LastMax(gens) + 1
  }

  /** At most n * MaxSize tuples: one round of the cursor per value of the
      longest generator. */
  lemma EvenSingleLengthBound<T>(gens: seq<Gen<T>>)
    requires NonEmptyFinite(gens) && |gens| > 0
    ensures EvenSingleLength(gens) <= |gens| * MaxSize(gens)
  {
    MulPred(MaxSize(gens), |gens|);
  }

  /** After the first call every generator is pending, and the last of the
      longest ones is due last, EvenSingleLength calls later. */
  lemma EvenSingleAfterFirst<T>(gens: seq<Gen<T>>, env: Env)
    requires NonEmptyFinite(gens) && |gens| > 0
    ensures Fresh(EvenSingle(true), gens).Ok?
    ensures var s1 := Step(Fresh(EvenSingle(true), gens).value, env);
      && s1.pull.Emit? && s1.env == env && Settled(s1.next)
      && Pending(s1.next, LastMax(gens)) && Due(s1.next, LastMax(gens)) == EvenSingleLength(gens)
      && LatestDue(s1.next, EvenSingleLength(gens))
  {
    var n, M, l := |gens|, MaxSize(gens), LastMax(gens);
    var s := Fresh(EvenSingle(true), gens).value;
    var s1 := Step(s, env).next;
    assert s1 == s.(firstRun := false);
    assert Settled(s1);
    forall i | Pending(s1, i)
      ensures Due(s1, i) <= Due(s1, l)
    {
      DueAtStart(s1, i, l);
    }
  }

  /** In the state after the first call, the last of the longest generators
      is due last. */
  lemma DueAtStart<T>(s1: IterState<T>, i: nat, l: nat)
    requires Settled(s1) && s1.curr == 0 && i < |s1.gens| && l == LastMax(s1.gens)
    requires forall k :: 0 <= k < |s1.gens| ==> s1.pos[k] == 1
    ensures Due(s1, i) <= Due(s1, l)
  {
    var gens, n, M := s1.gens, |s1.gens|, MaxSize(s1.gens);
    if Size(gens, i) < M {
      MulMono(Size(gens, i) - 1, M - 2, n);
      assert (M - 2) * n + n == (M - 1) * n;
    }
  }

  /** Over n >= 1 finite non-empty generators, with the completion flag (the
      default), the stream is finite: EvenSingleLength tuples, at most
      n * MaxSize, and then the end. */
  lemma EvenSingleStream<T>(gens: seq<Gen<T>>, env: Env)
    requires NonEmptyFinite(gens) && |gens| > 0
    ensures Fresh(EvenSingle(true), gens).Ok?
    ensures var N := EvenSingleLength(gens) + 1;
      var R := Run(Fresh(EvenSingle(true), gens).value, env, N);
      && N <= |gens| * MaxSize(gens) + 1
      && |R| == N && R[N - 1] == End
      && forall j :: 0 <= j < N - 1 ==> R[j].Emit?
  {
    EvenSingleLengthBound(gens);
    EvenSingleEndsAt(gens, env);
  }

  /** The first call and then the countdown from EvenSingleLength. */
  lemma EvenSingleEndsAt<T>(gens: seq<Gen<T>>, env: Env)
    requires NonEmptyFinite(gens) && |gens| > 0
    ensures Fresh(EvenSingle(true), gens).Ok?
    ensures EndsAt(Run(Fresh(EvenSingle(true), gens).value, env, EvenSingleLength(gens) + 1), EvenSingleLength(gens) + 1)
  {
    EvenSingleRest(gens, env);
    RunEmitsEnds(Fresh(EvenSingle(true), gens).value, env, EvenSingleLength(gens) + 1);
  }

  /** After the first tuple, EvenSingleLength - 1 tuples and then the end. */
  lemma EvenSingleRest<T>(gens: seq<Gen<T>>, env: Env)
    requires NonEmptyFinite(gens) && |gens| > 0
    ensures Fresh(EvenSingle(true), gens).Ok?
    ensures var s1 := Step(Fresh(EvenSingle(true), gens).value, env);
      && s1.pull.Emit? && EndsAt(Run(s1.next, s1.env, EvenSingleLength(gens)), EvenSingleLength(gens))
  {
    EvenSingleAfterFirst(gens, env);
    var s1 := Step(Fresh(EvenSingle(true), gens).value, env);
    EvenSingleRunFrom(s1.next, s1.env, EvenSingleLength(gens));
  }

  /** Two generators of sizes 2 and 3 with the completion flag: six tuples,
      then the end. */
  lemma EvenSingleTwoThree(env: Env)
    ensures var gens := [Finite([1, 2]), Finite([10, 20, 30])];
      && Fresh(EvenSingle(true), gens).Ok?
      && var R := Run(Fresh(EvenSingle(true), gens).value, env, 7);
         |R| == 7 && R[6] == End && forall j :: 0 <= j < 6 ==> R[j].Emit?
  {
    var gens := [Finite([1, 2]), Finite([10, 20, 30])];
    assert NonEmptyFinite(gens);
    assert MaxSize(gens) == 3 && LastMax(gens) == 1;
    EvenSingleStream(gens, env);
  }
}
