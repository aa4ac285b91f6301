/** Properties of RandomSingleParamChange: the first tuple takes every
    generator's first value; afterwards iterIndices[i] is always the index,
    in generator i's values, of the value at position i of the current tuple;
    the seen set stays bounded; a call gives up after maxDupeGenBeforeQuit
    attempts that all hit an already-seen hash; an emitted tuple's hash was
    not seen before. */
module RandomLemmas {
  import opened Wrappers
  import opened Generators
  import opened Strategies

  function Max(a: int, b: int): int
  {
    if a >= b then a else b
  }

  /** No tuple handed out yet: the state iterator() builds. */
  ghost predicate Unstarted<T>(s: IterState<T>)
  {
    s.RandomIt? && Valid(s) && s.current.None? && forall i :: 0 <= i < |s.iterIndices| ==> s.iterIndices[i] == 0
  }

  /** After a tuple: position i of the current tuple holds value
      iterIndices[i] of generator i, and that generator's iterator has handed
      out exactly the values up to it. */
  ghost predicate Settled<T>(s: IterState<T>)
  {
    && s.RandomIt? && Valid(s) && s.current.Some?
    && forall i :: 0 <= i < |s.gens| ==>
         && 0 <= s.iterIndices[i] && s.pos[i] == s.iterIndices[i] + 1
         && s.gens[i].HasAt(s.iterIndices[i])
         && s.current.value[i] == s.gens[i].At(s.iterIndices[i])
  }

  /** iterator() followed by the first doNext(): with maxDupe >= 1 it hands
      out every generator's first value with position vector all 0 and
      records that vector's hash; it throws NoSuchElementException when some
      generator is empty, and ends at once when maxDupe <= 0. */
  lemma RandomFirst<T>(hash: seq<int> -> int, cap: int, maxDupe: int, gens: seq<Gen<T>>, env: Env)
    ensures Fresh(RandomSingle(hash, cap, maxDupe), gens).Ok?
    ensures var s := Fresh(RandomSingle(hash, cap, maxDupe), gens).value;
      var r := Step(s, env);
      && Unstarted(s)
      && (maxDupe <= 0 ==> r.pull.End?)
      && (maxDupe > 0 && (exists i :: 0 <= i < |gens| && !gens[i].HasAt(0)) ==> r.pull == Throw(NoSuchElementException))
      && (maxDupe > 0 && (forall i :: 0 <= i < |gens| ==> gens[i].HasAt(0)) ==>
            && r.pull == Emit(seq(|gens|, i requires 0 <= i < |gens| => gens[i].At(0)))
            && r.next.iterIndices == seq(|gens|, _ => 0)
            && r.next.seen == {hash(seq(|gens|, _ => 0))}
            && Settled(r.next))
  {
    var s := Fresh(RandomSingle(hash, cap, maxDupe), gens).value;
    assert s.iterIndices == seq(|gens|, _ => 0);
  }

  /** One pass of the do-while body keeps the invariant when it hands out a
      tuple; a settled iterator over n >= 1 generators never throws. */
  lemma RandomMoveSettles<T>(s: IterState<T>, env: Env)
    requires Settled(s) || Unstarted(s)
    ensures var m := RandomMove(s, env);
      && (m.pull.Emit? ==> Settled(m.next) && m.next.current == Some(m.pull.tuple))
      && (Settled(s) && |s.gens| > 0 ==> m.pull.Emit? && m.env.used == env.used + 1)
  {
    if s.current.Some? && |s.gens| > 0 {
      var n := |s.gens|;
      var idx := env.draws(env.used) % n;
      var m := RandomMove(s, env);
      if m.pull.Emit? {
        forall i | 0 <= i < n
          ensures 0 <= m.next.iterIndices[i] && m.next.pos[i] == m.next.iterIndices[i] + 1
          ensures m.next.gens[i].HasAt(m.next.iterIndices[i])
          ensures m.next.current.value[i] == m.next.gens[i].At(m.next.iterIndices[i])
        {
          if i != idx {
            assert m.next.iterIndices[i] == s.iterIndices[i];
          }
        }
      }
    }
  }

  /** The do-while loop from attempt a on: the invariant holds after a
      tuple; a settled iterator over n >= 1 generators either hands out a
      tuple or gives up after exactly maxDupe - a random draws, all of them
      rejected. */
  lemma {:induction false} RandomAttemptSettles<T>(s: IterState<T>, env: Env, a: nat)
    requires Settled(s) || Unstarted(s)
    ensures var r := RandomAttempt(s, env, a);
      && (r.pull.Emit? ==> Settled(r.next) && r.next.current == Some(r.pull.tuple))
      && (Settled(s) && |s.gens| > 0 ==>
            && (r.pull.Emit? || r.pull.End?)
            && (r.pull.End? ==> r.env.used == env.used + Max(s.maxDupe - a, 0))
            && (r.pull.Emit? ==> r.env.used <= env.used + Max(s.maxDupe - a, 0)))
    decreases s.maxDupe - a
  {
    if a < s.maxDupe {
      var cleared := s.(seen := if |s.seen| >= s.cap then {} else s.seen);
      RandomMoveSettles(cleared, env);
      var m := RandomMove(cleared, env);
      if m.pull.Emit? && s.hash(m.next.iterIndices) in m.next.seen {
        RandomAttemptSettles(m.next, m.env, a + 1);
      }
    }
  }

  /** The invariant of RandomSingleParamChange: once a tuple is out, each
      doNext() over n >= 1 generators hands out a tuple whose position i is
      value iterIndices[i] (so iterIndices[i] lies in [0, k_i)) or ends
      after maxDupe fruitless draws; it never throws. */
  lemma RandomStep<T>(s: IterState<T>, env: Env)
    requires Settled(s) && |s.gens| > 0
    ensures var r := Step(s, env);
      && (r.pull.Emit? || r.pull.End?)
      && (r.pull.Emit? ==> Settled(r.next) && r.next.current == Some(r.pull.tuple))
      && (r.pull.End? ==> r.env.used == env.used + Max(s.maxDupe, 0))
  {
    RandomAttemptSettles(s, env, 0);
  }

  /** The seen set never grows past max(hashSetMaxBeforeReset, 1): it is
      cleared once it reaches the cap, before one more hash is added. */
  lemma {:induction false} RandomSeenBounded<T>(s: IterState<T>, env: Env, a: nat)
    requires s.RandomIt? && Valid(s) && |s.seen| <= Max(s.cap, 1)
    ensures |RandomAttempt(s, env, a).next.seen| <= Max(s.cap, 1)
    decreases s.maxDupe - a
  {
    if a < s.maxDupe {
      var cleared := s.(seen := if |s.seen| >= s.cap then {} else s.seen);
      var m := RandomMove(cleared, env);
      if !m.pull.Throw? && s.hash(m.next.iterIndices) in m.next.seen {
        RandomSeenBounded(m.next, m.env, a + 1);
      }
    }
  }

  /** A tuple handed out has a position-vector hash that is now in the seen
      set; the set only gained that hash, on top of what was kept; and when
      the set was below its cap, that hash was not in it before. */
  lemma {:induction false} RandomEmitsUnseen<T>(s: IterState<T>, env: Env, a: nat)
    requires s.RandomIt? && Valid(s)
    ensures var r := RandomAttempt(s, env, a); var h := s.hash(r.next.iterIndices);
      r.pull.Emit? ==>
        && h in r.next.seen && r.next.seen <= s.seen + {h}
        && (|s.seen| < s.cap ==> h !in s.seen && r.next.seen == s.seen + {h})
    decreases s.maxDupe - a
  {
    if a < s.maxDupe {
      var cleared := s.(seen := if |s.seen| >= s.cap then {} else s.seen);
      var m := RandomMove(cleared, env);
      if !m.pull.Throw? && s.hash(m.next.iterIndices) in m.next.seen {
        RandomEmitsUnseen(m.next, m.env, a + 1);
      }
    }
  }
}
