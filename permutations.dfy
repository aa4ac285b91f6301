/** Properties of AllPermutations: iterator() throws on an infinite
    generator; otherwise the stream is the cartesian product in odometer
    order (position 0 slowest, the last position fastest), Product tuples
    long, and it equals the flatMap chain of AllPermutations.stream(). */
module PermutationLemmas {
  import opened Wrappers
  import opened Generators
  import opened Strategies
  import opened Arithmetic

  /** iterator() throws IllegalStateException exactly when some generator is
      infinite; otherwise it iterates over the cartesian product. */
  lemma PermsFresh<T>(gens: seq<Gen<T>>)
    ensures Fresh(AllPermutations, gens).Failure? <==> exists i :: 0 <= i < |gens| && gens[i].IsInfinite()
    ensures Fresh(AllPermutations, gens).Failure? ==> Fresh(AllPermutations, gens).error == IllegalStateException
    ensures Fresh(AllPermutations, gens).Ok? ==>
      (AllFinite(gens) && Fresh(AllPermutations, gens).value == PermsIt(|gens|, Cartesian(gens), 0))
  {
  }

  /** The iterator over a list of tuples hands them out in order, then ends. */
  lemma {:induction false} PermsRun<T>(arity: nat, tuples: seq<seq<T>>, next: nat, env: Env)
    requires Valid(PermsIt(arity, tuples, next)) && next <= |tuples|
    ensures Run(PermsIt(arity, tuples, next), env, |tuples| - next + 1)
         == seq(|tuples| - next, j requires 0 <= j < |tuples| - next => Emit(tuples[next + j])) + [End]
    decreases |tuples| - next
  {
    var s := PermsIt(arity, tuples, next);
    if next < |tuples| {
      RunEmits(s, env, |tuples| - next + 1);
      PermsRun(arity, tuples, next + 1, env);
      assert Step(s, env).next == PermsIt(arity, tuples, next + 1);
    } else {
      RunStops(s, env, 1);
    }
  }

  /** Entry q * m + r of a flat map whose every piece has length m. */
  lemma {:induction false} FlatMapAt<A, B>(xs: seq<A>, f: A -> seq<B>, m: nat, q: nat, r: nat)
    requires forall j :: 0 <= j < |xs| ==> |f(xs[j])| == m
    requires q < |xs| && r < m
    ensures q * m + r < |FlatMap(xs, f)| && FlatMap(xs, f)[q * m + r] == f(xs[q])[r]
    decreases q
  {
    FlatMapLength(xs, f, m);
    if q > 0 {
      FlatMapAt(xs[1..], f, m, q - 1, r);
      assert q * m + r == m + ((q - 1) * m + r);
    }
  }

  /** The digits of entry j in the mixed radix of the generator sizes: the
      last digit is j mod k_last, the rest the digits of j / k_last. */
  function Digits<T>(gens: seq<Gen<T>>, j: nat): (d: seq<nat>)
    requires AllFinite(gens) && j < Product(gens)
    ensures |d| == |gens| && forall i :: 0 <= i < |gens| ==> d[i] < |gens[i].values|
    decreases |gens|
  {
    if gens == [] then []
    else
      var init, k := gens[..|gens| - 1], |gens[|gens| - 1].values|;
      DivBelow(j, Product(init), k);
      var d := Digits(init, j / k) + [j % k];
      assert forall i :: 0 <= i < |gens| - 1 ==> init[i] == gens[i];
      d
  }

  /** Entry q * k + r of the product extends entry q of the product of the
      earlier positions with value r of the last generator. */
  lemma CartesianAt<T>(gens: seq<Gen<T>>, q: nat, r: nat)
    requires AllFinite(gens) && |gens| > 0
    requires q < Product(gens[..|gens| - 1]) && r < |gens[|gens| - 1].values|
    ensures var init, last := gens[..|gens| - 1], gens[|gens| - 1].values;
      q * |last| + r < |Cartesian(gens)| &&
      Cartesian(gens)[q * |last| + r] == Cartesian(init)[q] + [last[r]]
  {
    var init, last := gens[..|gens| - 1], gens[|gens| - 1].values;
    var xs := Cartesian(init);
    assert forall j :: 0 <= j < |xs| ==> |Extend(last)(xs[j])| == |last|;
    FlatMapAt(xs, Extend(last), |last|, q, r);
  }

  /** Every entry of the product: entry j holds, at each position i, the
      value of generator i picked by digit i of j in the mixed radix of the
      sizes. So position 0 changes slowest and the last position fastest. */
  lemma {:induction false} CartesianDigits<T>(gens: seq<Gen<T>>, j: nat)
    requires AllFinite(gens) && j < Product(gens)
    ensures |Cartesian(gens)[j]| == |gens|
    ensures forall i :: 0 <= i < |gens| ==> Cartesian(gens)[j][i] == gens[i].values[Digits(gens, j)[i]]
    decreases |gens|
  {
    if gens != [] {
      var init, last := gens[..|gens| - 1], gens[|gens| - 1].values;
      var k := |last|;
      DivBelow(j, Product(init), k);
      var q, r := j / k, j % k;
      CartesianAt(gens, q, r);
      CartesianDigits(init, q);
      assert Cartesian(gens)[j] == Cartesian(init)[q] + [last[r]];
      assert Digits(gens, j) == Digits(init, q) + [r];
    }
  }

  /** Zero generators give one empty tuple. */
  lemma PermsNoGenerators<T>(env: Env)
    ensures Fresh<T>(AllPermutations, []) == Ok(PermsIt(0, [[]], 0))
    ensures Run<T>(PermsIt(0, [[]], 0), env, 2) == [Emit([]), End]
  {
    PermsRun<T>(0, [[]], 0, env);
  }

  /** Over finite generators the stream is the whole product, Product tuples,
      then end of stream. */
  lemma PermsStream<T>(gens: seq<Gen<T>>, env: Env)
    requires AllFinite(gens)
    ensures Fresh(AllPermutations, gens).Ok?
    ensures Run(Fresh(AllPermutations, gens).value, env, Product(gens) + 1)
         == seq(Product(gens), j requires 0 <= j < Product(gens) => Emit(Cartesian(gens)[j])) + [End]
  {
    PermsFresh(gens);
    PermsRun(|gens|, Cartesian(gens), 0, env);
  }

  // ---------------------------------------------------------------------------
  // AllPermutations.stream() as written: a flatMap chain over arrays that
  // start all null and get one more position filled per generator.

  function MapSeq<A, B>(g: A -> B, xs: seq<A>): (r: seq<B>)
    ensures |r| == |xs|
  {
    seq(|xs|, j requires 0 <= j < |xs| => g(xs[j]))
  }

  /** arr -> gen i's values, each copied into arr at position i. */
  function FillAt<T>(i: nat, values: seq<T>): seq<Option<T>> -> seq<seq<Option<T>>>
  {
    arr => seq(|values|, r requires 0 <= r < |values| => if i < |arr| then arr[i := Some(values[r])] else arr)
  }

  /** The stream after the loop has run for positions 0..i-1. */
  function JavaStream<T>(gens: seq<Gen<T>>, i: nat): seq<seq<Option<T>>>
    requires AllFinite(gens) && i <= |gens|
    decreases i
  {
    if i == 0 then [seq(|gens|, _ => None)]
    else FlatMap(JavaStream(gens, i - 1), FillAt(i - 1, gens[i - 1].values))
  }

  /** A partial tuple as an array of n slots, the rest still null. */
  function Pad<T>(n: nat): seq<T> -> seq<Option<T>>
  {
    c => seq(n, j requires 0 <= j < n => if j < |c| then Some(c[j]) else None)
  }

  /** Mapping before a flat map is mapping after it, when each piece maps over. */
  lemma {:induction false} FlatMapOfMap<A, B>(xs: seq<A>, g: A -> B, f: B -> seq<B>, h: A -> seq<A>)
    requires forall j :: 0 <= j < |xs| ==> f(g(xs[j])) == MapSeq(g, h(xs[j]))
    ensures FlatMap(MapSeq(g, xs), f) == MapSeq(g, FlatMap(xs, h))
    decreases |xs|
  {
    if xs != [] {
      assert MapSeq(g, xs)[1..] == MapSeq(g, xs[1..]);
      FlatMapOfMap(xs[1..], g, f, h);
      assert MapSeq(g, h(xs[0]) + FlatMap(xs[1..], h)) == MapSeq(g, h(xs[0])) + MapSeq(g, FlatMap(xs[1..], h));
    }
  }

  /** Filling slot |c| of a padded partial tuple is padding the extended tuple. */
  lemma FillPad<T>(n: nat, c: seq<T>, last: seq<T>)
    requires |c| < n
    ensures FillAt(|c|, last)(Pad(n)(c)) == MapSeq(Pad(n), Extend(last)(c))
  {
    var lhs, rhs := FillAt(|c|, last)(Pad(n)(c)), MapSeq(Pad(n), Extend(last)(c));
    assert |lhs| == |rhs| == |last|;
    forall r | 0 <= r < |last|
      ensures lhs[r] == rhs[r]
    {
      assert Extend(last)(c)[r] == c + [last[r]];
      assert lhs[r] == Pad(n)(c)[|c| := Some(last[r])];
      assert rhs[r] == Pad(n)(c + [last[r]]);
    }
  }

  /** The product of the first i generators extends that of the first i - 1. */
  lemma CartesianSnoc<T>(gens: seq<Gen<T>>, i: nat)
    requires AllFinite(gens) && 0 < i <= |gens|
    ensures Cartesian(gens[..i]) == FlatMap(Cartesian(gens[..i - 1]), Extend(gens[i - 1].values))
  {
    var pre := gens[..i];
    assert pre[..i - 1] == gens[..i - 1] && pre[i - 1] == gens[i - 1];
  }

  /** One more round of the loop: if the stream so far is the padded product
      of the first i - 1 generators, it becomes that of the first i. */
  lemma JavaStreamStep<T>(gens: seq<Gen<T>>, i: nat)
    requires AllFinite(gens) && 0 < i <= |gens|
    requires JavaStream(gens, i - 1) == MapSeq(Pad(|gens|), Cartesian(gens[..i - 1]))
    ensures JavaStream(gens, i) == MapSeq(Pad(|gens|), Cartesian(gens[..i]))
  {
    var n := |gens|;
    var last := gens[i - 1].values;
    var xs := Cartesian(gens[..i - 1]);
    forall j | 0 <= j < |xs|
      ensures FillAt(i - 1, last)(Pad(n)(xs[j])) == MapSeq(Pad(n), Extend(last)(xs[j]))
    {
      FillPad(n, xs[j], last);
    }
    FlatMapOfMap(xs, Pad(n), FillAt(i - 1, last), Extend(last));
    CartesianSnoc(gens, i);
  }

  lemma {:induction false} JavaStreamPrefix<T>(gens: seq<Gen<T>>, i: nat)
    requires AllFinite(gens) && i <= |gens|
    ensures JavaStream(gens, i) == MapSeq(Pad(|gens|), Cartesian(gens[..i]))
    decreases i
  {
    if i == 0 {
      assert gens[..0] == [];
      assert Pad<T>(|gens|)([]) == seq(|gens|, _ => None);
    } else {
      JavaStreamPrefix(gens, i - 1);
      JavaStreamStep(gens, i);
    }
  }

  /** What stream() yields over finite generators is the cartesian product,
      every slot filled. */
  lemma JavaStreamIsCartesian<T>(gens: seq<Gen<T>>)
    requires AllFinite(gens)
    ensures JavaStream(gens, |gens|) == MapSeq(Pad(|gens|), Cartesian(gens))
    ensures forall j, i :: 0 <= j < Product(gens) && 0 <= i < |gens| ==>
      JavaStream(gens, |gens|)[j][i] == Some(Cartesian(gens)[j][i])
  {
    JavaStreamPrefix(gens, |gens|);
    assert gens[..|gens|] == gens;
  }
}
