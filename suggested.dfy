/** ParamProvider.Suggested: infinite generators change one at a time
    (EvenSingleParamChange); of the finite ones, the first four by position
    among the finite ones go through AllPermutations and the rest through
    RandomSingleParamChange. Every provider uses its default settings. */
module SuggestedLemmas {
  import opened Wrappers
  import opened Generators
  import opened Strategies
  import opened PartitionedLemmas

  /** Finite generators at these positions (among the finite ones) get all
      permutations. The code tests index < 4, although its comment speaks of
      the first 3. */
  const PermutedFixed: nat := 4

  function InfinitePred<T>(): (nat, Gen<T>) -> bool
  {
    (i: nat, g: Gen<T>) => g.IsInfinite()
  }

  function LeadingPred<T>(): (nat, Gen<T>) -> bool
  {
    (i: nat, g: Gen<T>) => i < PermutedFixed
  }

  /** The provider for the finite generators. */
  function FixedStrategy<T>(hash: seq<int> -> int): Strategy<T>
  {
    Partitioned(LeadingPred(), AllPermutations, RandomSingle(hash, 20000, 200), true)
  }

  /** The Suggested provider; `hash` stands for Arrays.hashCode. */
  function SuggestedStrategy<T>(hash: seq<int> -> int): Strategy<T>
  {
    Partitioned(InfinitePred(), EvenSingle(true), FixedStrategy(hash), true)
  }

  /** The split of the finite generators: positions 0..3 (as far as there
      are any) on the permutation side, the rest on the random side. */
  lemma {:induction false} LeadingSplit<T>(fixed: seq<Gen<T>>, k: nat)
    requires k <= |fixed|
    ensures Select(fixed, LeadingPred(), true, k) == seq(if k < PermutedFixed then k else PermutedFixed, i => i)
    ensures Select(fixed, LeadingPred(), false, k)
         == seq(if k < PermutedFixed then 0 else k - PermutedFixed, i => i + PermutedFixed)
    decreases k
  {
    if k > 0 {
      LeadingSplit(fixed, k - 1);
      var pred := LeadingPred<T>();
      var tPrev, fPrev := Select(fixed, pred, true, k - 1), Select(fixed, pred, false, k - 1);
      assert pred(k - 1, fixed[k - 1]) == (k - 1 < PermutedFixed);
      if k - 1 < PermutedFixed {
        assert Select(fixed, pred, true, k) == tPrev + [k - 1];
        assert tPrev + [k - 1] == seq(k, i => i);
        assert Select(fixed, pred, false, k) == fPrev;
      } else {
        assert Select(fixed, pred, true, k) == tPrev;
        assert Select(fixed, pred, false, k) == fPrev + [k - 1];
        assert fPrev + [k - 1] == seq(k - PermutedFixed, i => i + PermutedFixed);
      }
    }
  }

  lemma EvenSingleOverInfiniteOk<T>(gens: seq<Gen<T>>)
    requires forall i :: 0 <= i < |gens| ==> gens[i].IsInfinite()
    ensures Fresh(EvenSingle(true), gens).Ok?
  {
  }

  lemma PermsOverFiniteOk<T>(gens: seq<Gen<T>>)
    requires forall i :: 0 <= i < |gens| ==> !gens[i].IsInfinite()
    ensures Fresh(AllPermutations, gens).Ok?
  {
  }

  /** Over finite generators the fixed-side provider never throws in
      iterator(): AllPermutations only ever gets finite generators. */
  lemma FixedFreshOk<T>(hash: seq<int> -> int, fixed: seq<Gen<T>>)
    requires forall i :: 0 <= i < |fixed| ==> !fixed[i].IsInfinite()
    ensures Fresh(FixedStrategy(hash), fixed).Ok?
  {
    var pred := LeadingPred<T>();
    FreshIsFreshPartitioned(pred, AllPermutations, RandomSingle(hash, 20000, 200), true, fixed);
    var ti := Select(fixed, pred, true, |fixed|);
    SelectSpec(fixed, pred, true, |fixed|);
    forall m | 0 <= m < |ti|
      ensures !Pick(fixed, ti)[m].IsInfinite()
    {
    }
    PermsOverFiniteOk(Pick(fixed, ti));
  }

  /** Suggested's iterator() never throws: in particular AllPermutations
      never receives an infinite generator, so its IllegalStateException
      cannot arise through Suggested. */
  lemma SuggestedFreshOk<T>(hash: seq<int> -> int, gens: seq<Gen<T>>)
    ensures Fresh(SuggestedStrategy(hash), gens).Ok?
  {
    var pred := InfinitePred<T>();
    FreshIsFreshPartitioned(pred, EvenSingle(true), FixedStrategy(hash), true, gens);
    var ti := Select(gens, pred, true, |gens|);
    var fi := Select(gens, pred, false, |gens|);
    SelectSpec(gens, pred, true, |gens|);
    SelectSpec(gens, pred, false, |gens|);
    forall m | 0 <= m < |ti|
      ensures Pick(gens, ti)[m].IsInfinite()
    {
      assert ti[m] in ti;
    }
    forall m | 0 <= m < |fi|
      ensures !Pick(gens, fi)[m].IsInfinite()
    {
      assert fi[m] in fi;
    }
    EvenSingleOverInfiniteOk(Pick(gens, ti));
    FixedFreshOk(hash, Pick(gens, fi));
  }

  /** With both kinds present, Suggested's iterator is two-sided: exactly the
      infinite generators go to EvenSingleParamChange, the finite ones to
      the fixed-side provider, and both sides end the stream once each has
      run out at least once. */
  lemma SuggestedRouting<T>(hash: seq<int> -> int, gens: seq<Gen<T>>)
    requires exists j :: 0 <= j < |gens| && gens[j].IsInfinite()
    requires exists j :: 0 <= j < |gens| && !gens[j].IsInfinite()
    ensures var r := Fresh(SuggestedStrategy(hash), gens);
      && r.Ok? && r.value.PartIt? && r.value.stop
      && (forall j :: 0 <= j < |gens| ==> (j in r.value.trueIdx <==> gens[j].IsInfinite()))
      && (forall j :: 0 <= j < |gens| ==> (j in r.value.falseIdx <==> !gens[j].IsInfinite()))
      && r.value.trueProv == EvenSingle(true) && r.value.falseProv == FixedStrategy(hash)
  {
    SuggestedFreshOk(hash, gens);
    var pred := InfinitePred<T>();
    var j1 :| 0 <= j1 < |gens| && gens[j1].IsInfinite();
    var j2 :| 0 <= j2 < |gens| && !gens[j2].IsInfinite();
    assert pred(j1, gens[j1]) && !pred(j2, gens[j2]);
    PartitionedFresh(pred, EvenSingle(true), FixedStrategy(hash), true, gens);
    assert forall j :: 0 <= j < |gens| ==> pred(j, gens[j]) == gens[j].IsInfinite();
  }
}
