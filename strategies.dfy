/** The tuple-composition strategies of jwp.fuzz.ParamProvider as a state
    machine: Fresh(strategy, gens) is provider.iterator() and Step(state, env)
    is one doNext() of that iterator (a tuple, the null that ends the stream,
    or an exception).

    java.util.Random is the environment Env: draws(k) is the k-th value the
    random sources hand out and nextInt(n) is draws(used) % n.
    Arrays.hashCode is left uninterpreted: it is the `hash` parameter of
    RandomSingle, so two position vectors with equal hashes count as seen. */
module Strategies {
  import opened Wrappers
  import opened Generators

  datatype JavaException = IllegalStateException | IllegalArgumentException | NoSuchElementException | IndexOutOfBoundsException

  /** The outcome of one doNext(): a tuple, the null that ends the stream, or a throw. */
  datatype Pull<T> = Emit(tuple: seq<T>) | End | Throw(exception: JavaException)

  datatype Env = Env(draws: nat -> nat, used: nat)

  /** A provider: the strategy and its configuration; the generators are given
      separately, as in the Java constructors. */
  datatype Strategy<!T> =
    | EvenAll(completeWhenAllCycled: bool)
    | EvenSingle(completeWhenAllCycled: bool)
    | AllPermutations
    | RandomSingle(hash: seq<int> -> int, hashSetMaxBeforeReset: int, maxDupeGenBeforeQuit: int)
    | Partitioned(pred: (nat, Gen<T>) -> bool, onTrue: Strategy<T>, onFalse: Strategy<T>,
                  stopWhenBothHaveEndedOnce: bool)

  /** The fields of each provider's live iterator. pos[i] is the number of
      values taken from generator i's current iterator; done[i] is
      completedOnce[i]. */
  datatype IterState<!T> =
    | EvenAllIt(gens: seq<Gen<T>>, stop: bool, pos: seq<nat>, done: seq<bool>)
    | EvenSingleIt(gens: seq<Gen<T>>, stop: bool, pos: seq<nat>, done: seq<bool>,
                   curr: nat, firstRun: bool, params: seq<T>)
    | PermsIt(arity: nat, tuples: seq<seq<T>>, next: nat)
    | RandomIt(gens: seq<Gen<T>>, hash: seq<int> -> int, cap: int, maxDupe: int,
               pos: seq<nat>, iterIndices: seq<int>, seen: set<int>, current: Option<seq<T>>)
    | PartIt(arity: nat, trueIdx: seq<nat>, falseIdx: seq<nat>,
             trueProv: Strategy<T>, trueGens: seq<Gen<T>>, falseProv: Strategy<T>, falseGens: seq<Gen<T>>,
             stop: bool, trueIt: IterState<T>, trueDone: bool, falseIt: IterState<T>, falseDone: bool)

  datatype Stepped<!T> = Stepped(pull: Pull<T>, next: IterState<T>, env: Env)

  // ---------------------------------------------------------------------------
  // Helpers on index lists

  predicate AllTrue(s: seq<bool>)
  {
    forall k :: 0 <= k < |s| ==> s[k]
  }

  predicate AllFinite<T>(gens: seq<Gen<T>>)
  {
    forall i :: 0 <= i < |gens| ==> gens[i].Finite?
  }

  predicate Increasing(s: seq<nat>)
  {
    forall i, j :: 0 <= i < j < |s| ==> s[i] < s[j]
  }

  /** ti and fi split 0..n-1: each increasing, each index in exactly one. */
  predicate Partitions(n: nat, ti: seq<nat>, fi: seq<nat>)
  {
    && Increasing(ti) && Increasing(fi)
    && (forall k :: 0 <= k < |ti| ==> ti[k] < n)
    && (forall k :: 0 <= k < |fi| ==> fi[k] < n)
    && (forall j :: 0 <= j < n ==> (j in ti) != (j in fi))
  }

  /** The indices j < k whose generator the predicate sends to side `want`, in
      increasing order: the trueIndexList / falseIndexList of the split loop. */
  function Select<T>(gens: seq<Gen<T>>, pred: (nat, Gen<T>) -> bool, want: bool, k: nat): (r: seq<nat>)
    requires k <= |gens|
    ensures |r| <= k && forall m :: 0 <= m < |r| ==> r[m] < k
    decreases k
  {
    if k == 0 then []
    else Select(gens, pred, want, k - 1) + (if pred(k - 1, gens[k - 1]) == want then [k - 1] else [])
  }

  /** Each side's list is increasing and below k. */
  lemma {:induction false} SelectIncreasing<T>(gens: seq<Gen<T>>, pred: (nat, Gen<T>) -> bool, want: bool, k: nat)
    requires k <= |gens|
    ensures Increasing(Select(gens, pred, want, k))
    decreases k
  {
    if k > 0 {
      SelectIncreasing(gens, pred, want, k - 1);
      var prev := Select(gens, pred, want, k - 1);
      assert forall m :: 0 <= m < |prev| ==> prev[m] < k - 1;
    }
  }

  /** Each side's list holds exactly the indices below k on that side. */
  lemma {:induction false} SelectMembers<T>(gens: seq<Gen<T>>, pred: (nat, Gen<T>) -> bool, want: bool, k: nat)
    requires k <= |gens|
    ensures forall j :: 0 <= j < k ==> (j in Select(gens, pred, want, k) <==> pred(j, gens[j]) == want)
    decreases k
  {
    if k > 0 {
      SelectMembers(gens, pred, want, k - 1);
      var prev := Select(gens, pred, want, k - 1);
      assert k - 1 !in prev;
    }
  }

  /** The two sides' lists together have k entries. */
  lemma {:induction false} SelectSizes<T>(gens: seq<Gen<T>>, pred: (nat, Gen<T>) -> bool, want: bool, k: nat)
    requires k <= |gens|
    ensures |Select(gens, pred, want, k)| + |Select(gens, pred, !want, k)| == k
    decreases k
  {
    if k > 0 {
      SelectSizes(gens, pred, want, k - 1);
    }
  }

  /** The split: both lists increasing, below k, exactly the indices on their
      side, and their lengths add up to k. */
  lemma SelectSpec<T>(gens: seq<Gen<T>>, pred: (nat, Gen<T>) -> bool, want: bool, k: nat)
    requires k <= |gens|
    ensures Increasing(Select(gens, pred, want, k))
    ensures forall m :: 0 <= m < |Select(gens, pred, want, k)| ==> Select(gens, pred, want, k)[m] < k
    ensures forall j :: 0 <= j < k ==> (j in Select(gens, pred, want, k) <==> pred(j, gens[j]) == want)
    ensures |Select(gens, pred, want, k)| + |Select(gens, pred, !want, k)| == k
  {
    SelectIncreasing(gens, pred, want, k);
    SelectMembers(gens, pred, want, k);
    SelectSizes(gens, pred, want, k);
  }

  lemma SelectPartitions<T>(gens: seq<Gen<T>>, pred: (nat, Gen<T>) -> bool)
    ensures Partitions(|gens|, Select(gens, pred, true, |gens|), Select(gens, pred, false, |gens|))
    ensures |Select(gens, pred, true, |gens|)| + |Select(gens, pred, false, |gens|)| == |gens|
  {
    SelectSpec(gens, pred, true, |gens|);
    SelectSpec(gens, pred, false, |gens|);
  }

  /** trueGens / falseGens: the generators at the given indices. */
  function Pick<T>(gens: seq<Gen<T>>, idx: seq<nat>): (r: seq<Gen<T>>)
    requires forall k :: 0 <= k < |idx| ==> idx[k] < |gens|
    ensures |r| == |idx|
  {
    seq(|idx|, k requires 0 <= k < |idx| => gens[idx[k]])
  }

  function IndexOf(s: seq<nat>, x: nat): (k: nat)
    requires x in s
    ensures k < |s| && s[k] == x
  {
    if s[0] == x then 0 else 1 + IndexOf(s[1..], x)
  }

  /** The full-width tuple whose position ti[k] holds tt[k] and whose position
      fi[k] holds ft[k]. */
  function Scatter<T>(n: nat, ti: seq<nat>, tt: seq<T>, fi: seq<nat>, ft: seq<T>): (r: seq<T>)
    requires Partitions(n, ti, fi) && |tt| == |ti| && |ft| == |fi|
    ensures |r| == n
  {
    seq(n, j requires 0 <= j < n => if j in ti then tt[IndexOf(ti, j)] else ft[IndexOf(fi, j)])
  }

  // ---------------------------------------------------------------------------
  // The cartesian product

  function FlatMap<A, B>(xs: seq<A>, f: A -> seq<B>): seq<B>
    decreases |xs|
  {
    if xs == [] then [] else f(xs[0]) + FlatMap(xs[1..], f)
  }

  lemma {:induction false} FlatMapLength<A, B>(xs: seq<A>, f: A -> seq<B>, m: nat)
    requires forall j :: 0 <= j < |xs| ==> |f(xs[j])| == m
    ensures |FlatMap(xs, f)| == |xs| * m
    decreases |xs|
  {
    if xs != [] {
      FlatMapLength(xs[1..], f, m);
      assert |xs| * m == m + (|xs| - 1) * m;
    }
  }

  function Product<T>(gens: seq<Gen<T>>): nat
    requires AllFinite(gens)
    decreases |gens|
  {
    if gens == [] then 1 else Product(gens[..|gens| - 1]) * |gens[|gens| - 1].values|
  }

  /** Extending each tuple c of the earlier positions with every value of the
      last generator, in that generator's order. */
  function Extend<T>(last: seq<T>): seq<T> -> seq<seq<T>>
  {
    c => seq(|last|, k requires 0 <= k < |last| => c + [last[k]])
  }

  /** The cartesian product as nested loops: position 0 outermost, the last
      position innermost. */
  function Cartesian<T>(gens: seq<Gen<T>>): (r: seq<seq<T>>)
    requires AllFinite(gens)
    ensures |r| == Product(gens)
    ensures forall j :: 0 <= j < |r| ==> |r[j]| == |gens|
    decreases |gens|
  {
    if gens == [] then [[]]
    else
      var init := Cartesian(gens[..|gens| - 1]);
      var last := gens[|gens| - 1].values;
      FlatMapLength(init, Extend(last), |last|);
      var r := FlatMap(init, Extend(last));
      FlatMapMembers(init, Extend(last), |gens|);
      r
  }

  lemma {:induction false} FlatMapMembers<T>(xs: seq<seq<T>>, f: seq<T> -> seq<seq<T>>, n: nat)
    requires forall j, y :: 0 <= j < |xs| && 0 <= y < |f(xs[j])| ==> |f(xs[j])[y]| == n
    ensures forall y :: 0 <= y < |FlatMap(xs, f)| ==> |FlatMap(xs, f)[y]| == n
    decreases |xs|
  {
    if xs != [] {
      FlatMapMembers(xs[1..], f, n);
    }
  }

  // ---------------------------------------------------------------------------
  // Well-formed iterator states

  function Height<T>(s: Strategy<T>): nat
  {
    match s
    case Partitioned(_, t, f, _) => 1 + Height(t) + Height(f)
    case _ => 0
  }

  /** A bound on how deep Step can recurse into sub-iterators, fresh ones included. */
  function Rank<T>(s: IterState<T>): nat
  {
    match s
    case PartIt(_, _, _, tp, _, fp, _, _, _, _, _, _) => 1 + Height(tp) + Height(fp)
    case _ => 0
  }

  /** The number of parameters of the tuples an iterator emits. */
  function Arity<T>(s: IterState<T>): nat
  {
    match s
    case EvenAllIt(gens, _, _, _) => |gens|
    case EvenSingleIt(gens, _, _, _, _, _, _) => |gens|
    case PermsIt(arity, _, _) => arity
    case RandomIt(gens, _, _, _, _, _, _, _) => |gens|
    case PartIt(arity, _, _, _, _, _, _, _, _, _, _, _) => arity
  }

  ghost predicate Valid<T>(s: IterState<T>)
    decreases s
  {
    match s
    case EvenAllIt(gens, _, pos, done) => |pos| == |gens| && |done| == |gens|
    case EvenSingleIt(gens, _, pos, done, curr, _, params) =>
      |pos| == |gens| && |done| == |gens| && |params| == |gens| && (curr < |gens| || curr == 0)
    case PermsIt(arity, tuples, _) => forall k :: 0 <= k < |tuples| ==> |tuples[k]| == arity
    case RandomIt(gens, _, _, _, pos, ii, _, current) =>
      |pos| == |gens| && |ii| == |gens| && (current.Some? ==> |current.value| == |gens|)
    case PartIt(n, ti, fi, tp, tg, fp, fg, _, tIt, _, fIt, _) =>
      && Partitions(n, ti, fi) && |ti| > 0 && |fi| > 0
      && Valid(tIt) && Arity(tIt) == |ti| == |tg| && Rank(tIt) <= Height(tp)
      && Valid(fIt) && Arity(fIt) == |fi| == |fg| && Rank(fIt) <= Height(fp)
  }

  // ---------------------------------------------------------------------------
  // iterator()

  function Fresh<T>(s: Strategy<T>, gens: seq<Gen<T>>): (r: Result<IterState<T>, JavaException>)
    ensures r.Ok? ==> Valid(r.value) && Arity(r.value) == |gens| && Rank(r.value) <= Height(s)
    decreases s, 1
  {
    match s
    case EvenAll(stop) =>
      Ok(EvenAllIt(gens, stop, seq(|gens|, _ => 0), seq(|gens|, _ => false)))
    case EvenSingle(stop) =>
      if exists i :: 0 <= i < |gens| && !gens[i].HasAt(0) then Failure(NoSuchElementException)
      else Ok(EvenSingleIt(gens, stop, seq(|gens|, _ => 1), seq(|gens|, _ => false), 0, true,
                           seq(|gens|, i requires 0 <= i < |gens| => gens[i].At(0))))
    case AllPermutations =>
      if exists i :: 0 <= i < |gens| && gens[i].IsInfinite() then Failure(IllegalStateException)
      else Ok(PermsIt(|gens|, Cartesian(gens), 0))
    case RandomSingle(hash, cap, maxDupe) =>
      Ok(RandomIt(gens, hash, cap, maxDupe, seq(|gens|, _ => 0), seq(|gens|, _ => 0), {}, None))
    case Partitioned(pred, onTrue, onFalse, stop) => FreshPartitioned(pred, onTrue, onFalse, stop, gens)
  }

  /** Partitioned.iterator(): the split loop, then the other provider's own
      iterator when one side is empty, else the two-sided iterator. */
  function FreshPartitioned<T>(pred: (nat, Gen<T>) -> bool, onTrue: Strategy<T>, onFalse: Strategy<T>,
                               stop: bool, gens: seq<Gen<T>>): (r: Result<IterState<T>, JavaException>)
    ensures r.Ok? ==> Valid(r.value) && Arity(r.value) == |gens|
    ensures r.Ok? ==> Rank(r.value) <= Height(Partitioned(pred, onTrue, onFalse, stop))
    decreases Partitioned(pred, onTrue, onFalse, stop), 0
  {
    var ti := Select(gens, pred, true, |gens|);
    var fi := Select(gens, pred, false, |gens|);
    SelectPartitions(gens, pred);
    if ti == [] then Fresh(onFalse, Pick(gens, fi))
    else if fi == [] then Fresh(onTrue, Pick(gens, ti))
    else
      var t :- Fresh(onTrue, Pick(gens, ti));
      var f :- Fresh(onFalse, Pick(gens, fi));
      Ok(PartIt(|gens|, ti, fi, onTrue, Pick(gens, ti), onFalse, Pick(gens, fi), stop, t, false, f, false))
  }

  // ---------------------------------------------------------------------------
  // doNext()

  /** The for loop of EvenAllParamChange.doNext from position i on, with acc
      the values already placed at positions 0..i-1. */
  function EvenAllLoop<T>(gens: seq<Gen<T>>, stop: bool, i: nat, pos: seq<nat>, done: seq<bool>, acc: seq<T>)
    : (r: (Pull<T>, seq<nat>, seq<bool>))
    requires i <= |gens| && |pos| == |gens| && |done| == |gens| && |acc| == i
    ensures |r.1| == |gens| && |r.2| == |gens|
    ensures r.0.Emit? ==> |r.0.tuple| == |gens|
    decreases |gens| - i
  {
    if i == |gens| then (Emit(acc), pos, done)
    else if gens[i].HasAt(pos[i]) then
      EvenAllLoop(gens, stop, i + 1, pos[i := pos[i] + 1], done, acc + [gens[i].At(pos[i])])
    else
      var done' := if stop && !done[i] then done[i := true] else done;
      if stop && !done[i] && AllTrue(done') then (End, pos, done')
      else if !gens[i].HasAt(0) then (Throw(NoSuchElementException), pos[i := 0], done')
      else EvenAllLoop(gens, stop, i + 1, pos[i := 1], done', acc + [gens[i].At(0)])
  }

  /** EvenSingleParamChange: take the next value of generator c from position p. */
  function EvenSingleTake<T>(s: IterState<T>, c: nat, p: nat, env: Env): (r: Stepped<T>)
    requires s.EvenSingleIt? && Valid(s) && c < |s.gens| && s.gens[c].HasAt(p)
    ensures Valid(r.next) && r.next.EvenSingleIt? && r.pull.Emit?
  {
    var params := s.params[c := s.gens[c].At(p)];
    var curr := if c + 1 >= |s.gens| then 0 else c + 1;
    Stepped(Emit(params), s.(pos := s.pos[c := p + 1], params := params, curr := curr), env)
  }

  /** The completion flags once the generator under the cursor is found
      exhausted: its flag is set when the stream is to end. */
  function RestartDone<T>(s: IterState<T>): (r: seq<bool>)
    requires s.EvenSingleIt? && Valid(s) && s.curr < |s.gens|
    ensures |r| == |s.done| && r[s.curr] == (s.stop || s.done[s.curr])
    ensures forall j :: 0 <= j < |r| && j != s.curr ==> r[j] == s.done[j]
  {
    if s.stop && !s.done[s.curr] then s.done[s.curr := true] else s.done
  }

  function EvenSingleStep<T>(s: IterState<T>, env: Env): (r: Stepped<T>)
    requires s.EvenSingleIt? && Valid(s)
    ensures Valid(r.next) && r.next.EvenSingleIt? && r.next.gens == s.gens
  {
    if s.firstRun then Stepped(Emit(s.params), s.(firstRun := false), env)
    else if |s.gens| == 0 then Stepped(Throw(IndexOutOfBoundsException), s, env)
    else
      var c := s.curr;
      if s.gens[c].HasAt(s.pos[c]) then EvenSingleTake(s, c, s.pos[c], env)
      else
        var done' := RestartDone(s);
        var s' := EvenSingleIt(s.gens, s.stop, s.pos, done', c, false, s.params);
        if s.stop && !s.done[c] && AllTrue(done') then Stepped(End, s', env)
        else if !s.gens[c].HasAt(0) then Stepped(Throw(NoSuchElementException), s'.(pos := s.pos[c := 0], params := s.params), env)
        else EvenSingleTake(s', c, 0, env)
  }

  /** A restart of the generator under the cursor that neither ends the stream
      nor finds it empty: the tuple is taken from its first value, whatever its
      position was. */
  lemma EvenSingleRestarts<T>(s: IterState<T>, env: Env)
    requires s.EvenSingleIt? && Valid(s) && !s.firstRun && |s.gens| > 0
    requires !s.gens[s.curr].HasAt(s.pos[s.curr]) && s.gens[s.curr].HasAt(0)
    requires !(s.stop && !s.done[s.curr] && AllTrue(RestartDone(s)))
    ensures Step(s, env)
         == EvenSingleTake(EvenSingleIt(s.gens, s.stop, s.pos[s.curr := 0], RestartDone(s), s.curr, false, s.params), s.curr, 0, env)
  {
    var c := s.curr;
    var s' := EvenSingleIt(s.gens, s.stop, s.pos, RestartDone(s), c, false, s.params);
    assert Step(s, env) == EvenSingleTake(s', c, 0, env);
    assert s.pos[c := 0][c := 1] == s.pos[c := 1];
  }

  /** One pass of the do-while body of RandomSingleParamChange.doNext after the
      attempt count and the reset of the seen set: the first call takes every
      generator's first value; later calls advance one random position. */
  function RandomMove<T>(s: IterState<T>, env: Env): (r: Stepped<T>)
    requires s.RandomIt? && Valid(s)
    ensures Valid(r.next) && r.next.RandomIt? && r.next.gens == s.gens && r.next.hash == s.hash
    ensures r.next.cap == s.cap && r.next.maxDupe == s.maxDupe && r.next.seen == s.seen
    ensures r.pull.Emit? || r.pull.Throw?
    ensures r.pull.Emit? ==> r.next.current == Some(r.pull.tuple)
  {
    var n := |s.gens|;
    if s.current.None? then
      if exists i :: 0 <= i < n && !s.gens[i].HasAt(0) then
        // the loop has restarted and read generators 0..e-1 and restarted
        // generator e, the first empty one, when next() throws
        var pos := seq(n, j requires 0 <= j < n =>
          if forall k :: 0 <= k <= j ==> s.gens[k].HasAt(0) then 1
          else if forall k :: 0 <= k < j ==> s.gens[k].HasAt(0) then 0
          else s.pos[j]);
        Stepped(Throw(NoSuchElementException), s.(pos := pos, iterIndices := s.iterIndices), env)
      else
        var params := seq(n, i requires 0 <= i < n => s.gens[i].At(0));
        Stepped(Emit(params), s.(pos := seq(n, _ => 1), current := Some(params)), env)
    else if n == 0 then Stepped(Throw(IllegalArgumentException), s, env)
    else
      var idx := env.draws(env.used) % n;
      var env' := env.(used := env.used + 1);
      var restart := !s.gens[idx].HasAt(s.pos[idx]);
      var p := if restart then 0 else s.pos[idx];
      var ii := if restart then -1 else s.iterIndices[idx];
      if !s.gens[idx].HasAt(p) then
        Stepped(Throw(NoSuchElementException), s.(pos := s.pos[idx := p], iterIndices := s.iterIndices[idx := ii]), env')
      else
        var params := s.current.value[idx := s.gens[idx].At(p)];
        Stepped(Emit(params),
                s.(pos := s.pos[idx := p + 1], iterIndices := s.iterIndices[idx := ii + 1], current := Some(params)),
                env')
  }

  /** The do-while loop of RandomSingleParamChange.doNext at attempt number `attempts`. */
  function RandomAttempt<T>(s: IterState<T>, env: Env, attempts: nat): (r: Stepped<T>)
    requires s.RandomIt? && Valid(s)
    ensures Valid(r.next) && r.next.RandomIt? && r.next.gens == s.gens && r.next.hash == s.hash
    ensures r.next.cap == s.cap && r.next.maxDupe == s.maxDupe
    ensures r.pull.Emit? ==> r.next.current == Some(r.pull.tuple) && |r.pull.tuple| == |s.gens|
    decreases s.maxDupe - attempts
  {
    if attempts >= s.maxDupe then Stepped(End, s, env)
    else
      var cleared := s.(seen := if |s.seen| >= s.cap then {} else s.seen);
      var m := RandomMove(cleared, env);
      if m.pull.Throw? then m
      else
        var h := s.hash(m.next.iterIndices);
        if h in m.next.seen then RandomAttempt(m.next, m.env, attempts + 1)
        else Stepped(m.pull, m.next.(seen := m.next.seen + {h}), m.env)
  }

  /** trueIter.next() / falseIter.next() after the hasNext() of this call: the
      cached pull, or, after a restart, the fresh iterator's first doNext(). */
  function TakeSide<T>(restarted: bool, cached: Pull<T>, it: IterState<T>, env: Env): (r: Stepped<T>)
    requires Valid(it)
    requires !restarted ==> cached.Emit? && |cached.tuple| == Arity(it)
    ensures Valid(r.next) && Arity(r.next) == Arity(it) && Rank(r.next) == Rank(it)
    ensures r.pull.Emit? ==> |r.pull.tuple| == Arity(it)
    ensures !r.pull.End?
    decreases Rank(it), 5
  {
    if !restarted then Stepped(cached, it, env)
    else
      var t := Step(it, env);
      if t.pull.End? then Stepped(Throw(NoSuchElementException), t.next, t.env) else t
  }

  /** hasNext() on one side of a Partitioned iterator, with an exhausted side
      restarted from its provider: the pull its hasNext() computed (a throw
      when hasNext() or the restart threw), the side's iterator afterwards and
      whether it was restarted. */
  datatype Side<!T> = Side(pull: Pull<T>, it: IterState<T>, restarted: bool, env: Env)

  function HasNextSide<T>(it: IterState<T>, prov: Strategy<T>, gens: seq<Gen<T>>, env: Env): (r: Side<T>)
    requires Valid(it) && Arity(it) == |gens| && Rank(it) <= Height(prov)
    ensures Valid(r.it) && Arity(r.it) == |gens| && Rank(r.it) <= Height(prov)
    ensures !r.restarted && !r.pull.Throw? ==> r.pull.Emit? && |r.pull.tuple| == |gens|
    decreases Rank(it), 5
  {
    var t := Step(it, env);
    if !t.pull.End? then Side(t.pull, t.next, false, t.env)
    else
      match Fresh(prov, gens)
      case Ok(restart) => Side(End, restart, true, t.env)
      case Failure(e) => Side(Throw(e), t.next, true, t.env)
  }

  /** Partitioned's doNext: hasNext() on the true side, marking it completed
      once when it restarts; then PartFalse. */
  function PartStep<T>(s: IterState<T>, env: Env): (r: Stepped<T>)
    requires s.PartIt? && Valid(s)
    ensures Valid(r.next) && Arity(r.next) == Arity(s) && Rank(r.next) == Rank(s)
    ensures r.pull.Emit? ==> |r.pull.tuple| == Arity(s)
    decreases Rank(s), 3
  {
    var t := HasNextSide(s.trueIt, s.trueProv, s.trueGens, env);
    var s0 := s.(trueIt := t.it, trueDone := s.trueDone || t.restarted);
    if t.pull.Throw? then Stepped(t.pull, s0, t.env)
    else PartFalse(s0, t.restarted, t.pull, t.env)
  }

  /** The rest of Partitioned's doNext once the true side's hasNext() is
      done: the same on the false side, then PartTake. */
  function PartFalse<T>(s: IterState<T>, tRestart: bool, tPull: Pull<T>, env: Env): (r: Stepped<T>)
    requires s.PartIt? && Valid(s)
    requires !tRestart ==> tPull.Emit? && |tPull.tuple| == Arity(s.trueIt)
    ensures Valid(r.next) && Arity(r.next) == Arity(s) && Rank(r.next) == Rank(s)
    ensures r.pull.Emit? ==> |r.pull.tuple| == Arity(s)
    ensures r.next.PartIt? && (s.trueDone ==> r.next.trueDone) && (s.falseDone ==> r.next.falseDone)
    decreases Rank(s), 2
  {
    var f := HasNextSide(s.falseIt, s.falseProv, s.falseGens, env);
    var s1 := s.(falseIt := f.it, falseDone := s.falseDone || f.restarted);
    if f.pull.Throw? then Stepped(f.pull, s1, f.env)
    else PartTake(s1, tRestart, tPull, f.restarted, f.pull, f.env)
  }

  /** The rest of Partitioned's doNext once both sides have a next tuple: the
      stop check, then next() on the true side. A side that was not restarted
      hands out the tuple its hasNext() computed. */
  function PartTake<T>(s: IterState<T>, tRestart: bool, tPull: Pull<T>, fRestart: bool, fPull: Pull<T>, env: Env)
    : (r: Stepped<T>)
    requires s.PartIt? && Valid(s)
    requires !tRestart ==> tPull.Emit? && |tPull.tuple| == Arity(s.trueIt)
    requires !fRestart ==> fPull.Emit? && |fPull.tuple| == Arity(s.falseIt)
    ensures Valid(r.next) && Arity(r.next) == Arity(s) && Rank(r.next) == Rank(s)
    ensures r.pull.Emit? ==> |r.pull.tuple| == Arity(s)
    ensures r.next.PartIt? && r.next.trueDone == s.trueDone && r.next.falseDone == s.falseDone
    ensures r.pull.End? <==> s.stop && s.trueDone && s.falseDone
    decreases Rank(s), 1
  {
    if s.stop && s.trueDone && s.falseDone then Stepped(End, s, env)
    else
      var t2 := TakeSide(tRestart, tPull, s.trueIt, env);
      if !t2.pull.Emit? then Stepped(t2.pull, s.(trueIt := t2.next), t2.env)
      else PartTakeFalse(s.(trueIt := t2.next), t2.pull.tuple, fRestart, fPull, t2.env)
  }

  /** Past the stop test, once the true side's next() has emitted, PartTake
      goes on with the false side's next() from the updated true side. */
  lemma PartTakeContinues<T>(s: IterState<T>, tRestart: bool, tPull: Pull<T>, fRestart: bool, fPull: Pull<T>, env: Env)
    requires s.PartIt? && Valid(s) && !(s.stop && s.trueDone && s.falseDone)
    requires !tRestart ==> tPull.Emit? && |tPull.tuple| == Arity(s.trueIt)
    requires !fRestart ==> fPull.Emit? && |fPull.tuple| == Arity(s.falseIt)
    requires TakeSide(tRestart, tPull, s.trueIt, env).pull.Emit?
    ensures var t2 := TakeSide(tRestart, tPull, s.trueIt, env);
      && Valid(s.(trueIt := t2.next)) && |t2.pull.tuple| == |s.trueIdx|
      && PartTake(s, tRestart, tPull, fRestart, fPull, env)
           == PartTakeFalse(s.(trueIt := t2.next), t2.pull.tuple, fRestart, fPull, t2.env)
  {
  }

  /** next() on the false side, then both sides' tuples scattered back to the
      original positions. */
  function PartTakeFalse<T>(s: IterState<T>, trueTuple: seq<T>, fRestart: bool, fPull: Pull<T>, env: Env)
    : (r: Stepped<T>)
    requires s.PartIt? && Valid(s) && |trueTuple| == |s.trueIdx|
    requires !fRestart ==> fPull.Emit? && |fPull.tuple| == Arity(s.falseIt)
    ensures Valid(r.next) && Arity(r.next) == Arity(s) && Rank(r.next) == Rank(s)
    ensures r.pull.Emit? ==> |r.pull.tuple| == Arity(s)
    ensures r.next.PartIt? && r.next.trueDone == s.trueDone && r.next.falseDone == s.falseDone
    ensures !r.pull.End?
    decreases Rank(s), 0
  {
    var f2 := TakeSide(fRestart, fPull, s.falseIt, env);
    if !f2.pull.Emit? then Stepped(f2.pull, s.(falseIt := f2.next), f2.env)
    else Stepped(Emit(Scatter(s.arity, s.trueIdx, trueTuple, s.falseIdx, f2.pull.tuple)), s.(falseIt := f2.next), f2.env)
  }

  /** One doNext() of any provider's iterator. */
  function Step<T>(s: IterState<T>, env: Env): (r: Stepped<T>)
    requires Valid(s)
    ensures Valid(r.next) && Arity(r.next) == Arity(s) && Rank(r.next) == Rank(s)
    ensures r.pull.Emit? ==> |r.pull.tuple| == Arity(s)
    decreases Rank(s), 4
  {
    match s
    case EvenAllIt(gens, stop, pos, done) =>
      var (p, pos', done') := EvenAllLoop(gens, stop, 0, pos, done, []);
      Stepped(p, EvenAllIt(gens, stop, pos', done'), env)
    case EvenSingleIt(_, _, _, _, _, _, _) => EvenSingleStep(s, env)
    case PermsIt(arity, tuples, next) =>
      if next < |tuples| then Stepped(Emit(tuples[next]), s.(next := next + 1), env)
      else Stepped(End, s, env)
    case RandomIt(_, _, _, _, _, _, _, _) => RandomAttempt(s, env, 0)
    case PartIt(_, _, _, _, _, _, _, _, _, _, _, _) => PartStep(s, env)
  }

  /** The pulls a consumer sees over at most `fuel` calls of next(): the
      stream stops at the first null or exception, as NullMeansCompleteIterator
      ends iteration there. */
  function Run<T>(s: IterState<T>, env: Env, fuel: nat): (r: seq<Pull<T>>)
    requires Valid(s)
    ensures |r| <= fuel
    ensures forall j :: 0 <= j < |r| - 1 ==> r[j].Emit?
    ensures |r| < fuel ==> |r| > 0 && !r[|r| - 1].Emit?
    ensures forall j :: 0 <= j < |r| ==> r[j].Emit? ==> |r[j].tuple| == Arity(s)
    decreases fuel
  {
    if fuel == 0 then []
    else
      var st := Step(s, env);
      if st.pull.Emit? then [st.pull] + Run(st.next, st.env, fuel - 1) else [st.pull]
  }

  /** The stream after a tuple: that tuple, then the stream of the next state. */
  lemma RunEmits<T>(s: IterState<T>, env: Env, fuel: nat)
    requires Valid(s) && fuel > 0 && Step(s, env).pull.Emit?
    ensures Run(s, env, fuel) == [Step(s, env).pull] + Run(Step(s, env).next, Step(s, env).env, fuel - 1)
  {
  }

  /** The stream stops at a null or an exception. */
  lemma RunStops<T>(s: IterState<T>, env: Env, fuel: nat)
    requires Valid(s) && fuel > 0 && !Step(s, env).pull.Emit?
    ensures Run(s, env, fuel) == [Step(s, env).pull]
  {
  }

  /** A stream of exactly D pulls whose last is the end. */
  predicate EndsAt<T>(R: seq<Pull<T>>, D: nat)
  {
    D >= 1 && |R| == D && R[D - 1] == End
  }

  /** P(s, d) is a countdown for the stream: a state it holds for is valid,
      and its next call ends the stream when d is 1 and otherwise emits a
      tuple and reaches a state where P holds for d - 1. */
  ghost predicate CountsDown<T>(P: (IterState<T>, nat) -> bool, s: IterState<T>, env: Env, d: nat)
  {
    && Valid(s) && d >= 1
    && var r := Step(s, env);
       && (r.pull.End? ==> d == 1)
       && (!r.pull.End? ==> d >= 2 && r.pull.Emit? && P(r.next, d - 1))
  }

  /** A stream with a countdown from D is D - 1 tuples and then the end. */
  lemma {:induction false} RunCountsDown<T>(P: (IterState<T>, nat) -> bool, s: IterState<T>, env: Env, D: nat)
    requires forall s': IterState<T>, e: Env, d: nat :: P(s', d) ==> CountsDown(P, s', e, d)
    requires Valid(s) && P(s, D)
    ensures EndsAt(Run(s, env, D), D)
    decreases D
  {
    assert CountsDown(P, s, env, D);
    var r := Step(s, env);
    if r.pull.End? {
      RunStops(s, env, D);
    } else {
      RunCountsDown(P, r.next, r.env, D - 1);
      RunEmitsEnds(s, env, D);
    }
  }

  /** A tuple followed by a stream of D - 1 that ends makes a stream of D
      that ends. */
  lemma RunEmitsEnds<T>(s: IterState<T>, env: Env, D: nat)
    requires Valid(s) && D >= 2 && Step(s, env).pull.Emit?
    requires EndsAt(Run(Step(s, env).next, Step(s, env).env, D - 1), D - 1)
    ensures EndsAt(Run(s, env, D), D)
  {
    var r := Step(s, env);
    RunEmits(s, env, D);
    ConsEnds(r.pull, Run(r.next, r.env, D - 1), Run(s, env, D), D);
  }

  lemma ConsEnds<T>(p: Pull<T>, rest: seq<Pull<T>>, R: seq<Pull<T>>, D: nat)
    requires D >= 2 && R == [p] + rest && EndsAt(rest, D - 1)
    ensures EndsAt(R, D)
  {
  }
}
