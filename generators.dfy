/** Per-parameter value generators (jwp.fuzz.ParamGenerator).

    A generator is a restartable value sequence tagged finite or infinite.
    A live Java iterator over it is the pair (generator, pos), where pos counts
    the values already handed out: hasNext() is HasAt(pos) and next() is At(pos).
    Calling iterator() again is a restart at pos 0.

    ofFixed in the source returns the SAME stream's iterator on every call, so a
    restart of a fixed generator would throw IllegalStateException in Java; the
    model treats every generator as replayable, as the providers assume. */
module Generators {
  import opened Wrappers

  datatype Gen<T> = Finite(values: seq<T>) | Infinite(stream: nat -> T)
  {
    predicate IsInfinite() { Infinite? }

    /** hasNext() of an iterator that has handed out pos values. */
    predicate HasAt(pos: nat) { Infinite? || pos < |values| }

    /** The value next() returns at position pos. */
    function At(pos: nat): T
      requires HasAt(pos)
    {
      if Infinite? then stream(pos) else values[pos]
    }
  }

  /** The record of one invocation of the function under test, as far as this
      core reads it: the argument tuple and whether an exception was thrown. */
  datatype ExecutionResult<T> = ExecutionResult(params: seq<T>, failed: bool)

  /** One call onComplete(result, myParamIndex, myParam) received by a generator. */
  datatype Feedback<T, V> = Feedback(result: ExecutionResult<T>, index: nat, value: V)

  // ---------------------------------------------------------------------------
  // Fixed generators

  /** ofFixed(stream) / of(items...): a finite generator over the given items. */
  function Of<T>(items: seq<T>): (g: Gen<T>)
    ensures !g.IsInfinite()
    ensures forall i :: 0 <= i < |items| ==> g.HasAt(i) && g.At(i) == items[i]
    ensures !g.HasAt(|items|)
  {
    Finite(items)
  }

  // ---------------------------------------------------------------------------
  // The mapNotNull adapter

  /** The values of map(fnTo).filter(nonNull) over s, in order; None is Java's null. */
  function FilterMap<T, U>(s: seq<T>, to: T -> Option<U>): (r: seq<U>)
    ensures |r| <= |s|
    decreases |s|
  {
    if s == [] then []
    else (match to(s[0]) case Some(u) => [u] case None => []) + FilterMap(s[1..], to)
  }

  /** mapNotNull(fnTo, fnFrom): the base's values mapped by fnTo, nulls dropped;
      isInfinite() is the base's. An infinite stream cannot drop values in this
      representation, so over an infinite base fnTo must never yield null. */
  function MapNotNull<T, U>(g: Gen<T>, to: T -> Option<U>): (r: Gen<U>)
    requires g.Infinite? ==> forall i: nat :: to(g.stream(i)).Some?
    ensures r.IsInfinite() == g.IsInfinite()
    ensures r.Finite? ==> r.values == FilterMap(g.values, to)
    ensures r.Infinite? ==> forall i: nat :: to(g.stream(i)) == Some(r.stream(i))
  {
    match g
    case Finite(vs) => Finite(FilterMap(vs, to))
    case Infinite(f) => Infinite((i: nat) => to(f(i)).value)
  }

  /** The adapter's onComplete: the base receives the same call with the value
      mapped back through fnFrom. */
  function MappedFeedback<T, U, V>(call: Feedback<T, U>, from: U -> V): Feedback<T, V>
  {
    Feedback(call.result, call.index, from(call.value))
  }

  lemma {:induction false} FilterMapAppend<T, U>(a: seq<T>, b: seq<T>, to: T -> Option<U>)
    ensures FilterMap(a + b, to) == FilterMap(a, to) + FilterMap(b, to)
    decreases |a|
  {
    if a == [] {
      assert a + b == b;
    } else {
      assert (a + b)[1..] == a[1..] + b;
      FilterMapAppend(a[1..], b, to);
    }
  }

  /** A value comes out of the adapter exactly when fnTo maps some base value to it. */
  lemma {:induction false} FilterMapMembers<T, U>(s: seq<T>, to: T -> Option<U>, u: U)
    ensures u in FilterMap(s, to) <==> exists i :: 0 <= i < |s| && to(s[i]) == Some(u)
    decreases |s|
  {
    if s != [] {
      FilterMapMembers(s[1..], to, u);
      var head: seq<U> := match to(s[0]) case Some(w) => [w] case None => [];
      assert FilterMap(s, to) == head + FilterMap(s[1..], to);
      if u in FilterMap(s, to) {
        if u in head {
          assert to(s[0]) == Some(u);
        } else {
          var i :| 0 <= i < |s[1..]| && to(s[1..][i]) == Some(u);
          assert to(s[i + 1]) == Some(u);
        }
      }
      if i :| 0 <= i < |s| && to(s[i]) == Some(u) {
        if i == 0 {
          assert u in head;
        } else {
          assert to(s[1..][i - 1]) == Some(u);
        }
      }
    }
  }

  /** When fnTo never yields null, the adapter is the plain element-wise map. */
  lemma {:induction false} FilterMapTotal<T, U>(s: seq<T>, to: T -> Option<U>)
    requires forall i :: 0 <= i < |s| ==> to(s[i]).Some?
    ensures |FilterMap(s, to)| == |s|
    ensures forall i :: 0 <= i < |s| ==> FilterMap(s, to)[i] == to(s[i]).value
    decreases |s|
  {
    if s != [] {
      assert forall i :: 0 <= i < |s[1..]| ==> to(s[1..][i]).Some? by {
        forall i | 0 <= i < |s[1..]| ensures to(s[1..][i]).Some? {
          assert s[1..][i] == s[i + 1];
        }
      }
      FilterMapTotal(s[1..], to);
      assert FilterMap(s, to) == [to(s[0]).value] + FilterMap(s[1..], to);
    }
  }

  /** Feedback round trip: when fnFrom undoes fnTo, a value the adapter handed
      out reaches the base's onComplete as one of the base's own values, at the
      same index and with the same result. */
  lemma MappedFeedbackFromBase<T, U, V>(s: seq<V>, to: V -> Option<U>, from: U -> V, call: Feedback<T, U>)
    requires forall v :: to(v).Some? ==> from(to(v).value) == v
    requires call.value in FilterMap(s, to)
    ensures MappedFeedback(call, from).value in s
    ensures MappedFeedback(call, from).index == call.index
    ensures MappedFeedback(call, from).result == call.result
  {
    FilterMapMembers(s, to, call.value);
    var i :| 0 <= i < |s| && to(s[i]) == Some(call.value);
    assert from(call.value) == s[i];
  }

  // ---------------------------------------------------------------------------
  // Curated boundary values

  const ByteMin: int := -128
  const ByteMax: int := 127
  const ShortMin: int := -32768
  const ShortMax: int := 32767
  const IntMin: int := -2147483648
  const IntMax: int := 2147483647
  const LongMin: int := -9223372036854775808
  const LongMax: int := 9223372036854775807

  predicate Within(s: seq<int>, lo: int, hi: int)
  {
    forall i :: 0 <= i < |s| ==> lo <= s[i] <= hi
  }

  /** IntStream.rangeClosed(lo, hi). */
  function RangeClosed(lo: int, hi: int): (r: seq<int>)
    requires lo <= hi
    ensures |r| == hi - lo + 1
    ensures forall i :: 0 <= i < |r| ==> r[i] == lo + i
  {
    seq(hi - lo + 1, i => lo + i)
  }

  function InterestingBytes(): (r: seq<int>)
    ensures |r| == 75
    ensures Within(r, ByteMin, ByteMax)
    ensures forall x :: -35 <= x <= 35 ==> x in r
    ensures ByteMin in r && 64 in r && 100 in r && ByteMax in r
  {
    var r := [ByteMin, 64, 100, ByteMax] + RangeClosed(-35, 35);
    assert forall x :: -35 <= x <= 35 ==> x in r by {
      forall x | -35 <= x <= 35 ensures x in r {
        assert r[x + 39] == x;
      }
    }
    r
  }

  function InterestingShorts(): (r: seq<int>)
    ensures |r| == 85
    ensures r[..75] == InterestingBytes()
    ensures Within(r, ShortMin, ShortMax)
  {
    InterestingBytes() + [ShortMin, -129, 128, 255, 256, 512, 1000, 1024, 4096, ShortMax]
  }

  function InterestingInts(): (r: seq<int>)
    ensures |r| == 93
    ensures r[..85] == InterestingShorts()
    ensures Within(r, IntMin, IntMax)
  {
    InterestingShorts() + [IntMin, -100663046, -32769, 32768, 65535, 65536, 100663045, IntMax]
  }

  function InterestingLongs(): (r: seq<int>)
    ensures |r| == 95
    ensures r[..93] == InterestingInts()
    ensures Within(r, LongMin, LongMax)
  {
    InterestingInts() + [LongMin, LongMax]
  }

  /** The narrower lists are prefixes of every wider one. */
  lemma InterestingListsNested()
    ensures InterestingLongs()[..75] == InterestingBytes()
    ensures InterestingLongs()[..85] == InterestingShorts()
    ensures InterestingInts()[..75] == InterestingBytes()
  {
    var l, i, s := InterestingLongs(), InterestingInts(), InterestingShorts();
    assert l[..85] == l[..93][..85];
    assert l[..75] == l[..93][..85][..75];
    assert i[..75] == i[..85][..75];
  }

  // ---------------------------------------------------------------------------
  // suggested(cls)

  /** The parameter values this core hands out: boxed Java objects. Float and
      double values are opaque tokens; StreamObject is a java.util.stream object
      used as a value, holding the elements it would produce. */
  datatype Value =
    | Null
    | Bool(b: bool)
    | Int(i: int)
    | FloatingPoint(token: nat)
    | StreamObject(elements: seq<Value>)

  datatype Kind = BooleanKind | ByteKind | ShortKind | IntKind | LongKind | FloatKind | DoubleKind | CharKind

  /** The Class<?> argument of suggested: a primitive type (Byte.TYPE), its
      wrapper class (Byte.class), or some other class. */
  datatype JavaClass = Primitive(kind: Kind) | Boxed(kind: Kind) | OtherClass(name: string)

  datatype SuggestError = UnsupportedOperation(message: string) | IllegalArgument(message: string)

  function Ints(s: seq<int>): (r: seq<Value>)
    ensures |r| == |s| && forall i :: 0 <= i < |s| ==> r[i] == Int(s[i])
  {
    seq(|s|, i requires 0 <= i < |s| => Int(s[i]))
  }

  /** interestingFloats(): the long list as doubles plus six special values;
      only its length is modelled, each value is an opaque token. */
  function InterestingFloats(): (r: seq<Value>)
    ensures |r| == |InterestingLongs()| + 6
    ensures forall i :: 0 <= i < |r| ==> r[i].FloatingPoint?
  {
    seq(101, i requires 0 <= i => FloatingPoint(i))
  }

  /** interestingDoubles(): the float list plus three more special values. */
  function InterestingDoubles(): (r: seq<Value>)
    ensures |r| == |InterestingFloats()| + 3
    ensures r[..|InterestingFloats()|] == InterestingFloats()
  {
    InterestingFloats() + [FloatingPoint(101), FloatingPoint(102), FloatingPoint(103)]
  }

  predicate IsNumeric(k: Kind)
  {
    k != BooleanKind && k != CharKind
  }

  /** The curated list a numeric kind's stream produces. */
  function NumericValues(k: Kind): seq<Value>
    requires IsNumeric(k)
  {
    match k
    case ByteKind => Ints(InterestingBytes())
    case ShortKind => Ints(InterestingShorts())
    case IntKind => Ints(InterestingInts())
    case LongKind => Ints(InterestingLongs())
    case FloatKind => InterestingFloats()
    case DoubleKind => InterestingDoubles()
  }

  function SuggestFailure(cls: JavaClass): SuggestError
  {
    if cls.OtherClass? then IllegalArgument("No suggested generator for " + cls.name)
    else UnsupportedOperation("TODO")
  }

  /** suggested(cls) AS WRITTEN: for every numeric kind the source passes one
      stream to the varargs of(T...), so the generator holds a single value,
      the stream object itself. */
  function SuggestedAsWritten(cls: JavaClass): (r: Result<Gen<Value>, SuggestError>)
    ensures r.Failure? <==> cls.OtherClass? || cls.kind == CharKind
    ensures r.Failure? ==> r.error == SuggestFailure(cls)
    ensures r.Ok? ==> !r.value.IsInfinite()
    ensures r.Ok? && IsNumeric(cls.kind) ==> |r.value.values| == 1
  {
    match cls
    case OtherClass(_) => Failure(SuggestFailure(cls))
    case Primitive(k) =>
      if k == BooleanKind then Ok(Of([Bool(true), Bool(false)]))
      else if k == CharKind then Failure(SuggestFailure(cls))
      else Ok(Of([StreamObject(NumericValues(k))]))
    case Boxed(k) =>
      if k == BooleanKind then Ok(Of([Null, Bool(true), Bool(false)]))
      else if k == CharKind then Failure(SuggestFailure(cls))
      else Ok(Of([StreamObject([Null] + NumericValues(k))]))
  }

  /** suggested(cls) as evidently intended (ofFixed over each stream): the
      curated values themselves, the boxed variant with null in front. */
  function Suggested(cls: JavaClass): (r: Result<Gen<Value>, SuggestError>)
    ensures r.Failure? <==> cls.OtherClass? || cls.kind == CharKind
    ensures r.Failure? ==> r.error == SuggestFailure(cls)
    ensures r.Ok? ==> !r.value.IsInfinite()
    ensures cls == Primitive(BooleanKind) ==> r == Ok(Finite([Bool(true), Bool(false)]))
    ensures cls == Boxed(BooleanKind) ==> r == Ok(Finite([Null, Bool(true), Bool(false)]))
    ensures cls.Primitive? && IsNumeric(cls.kind) ==> r == Ok(Finite(NumericValues(cls.kind)))
  {
    match cls
    case OtherClass(_) => Failure(SuggestFailure(cls))
    case Primitive(k) =>
      if k == BooleanKind then Ok(Of([Bool(true), Bool(false)]))
      else if k == CharKind then Failure(SuggestFailure(cls))
      else Ok(Of(NumericValues(k)))
    case Boxed(k) =>
      if k == BooleanKind then Ok(Of([Null, Bool(true), Bool(false)]))
      else if k == CharKind then Failure(SuggestFailure(cls))
      else Ok(Of([Null] + NumericValues(k)))
  }

  /** Every boxed class yields null followed by exactly its primitive's values. */
  lemma SuggestedBoxedIsNullThenPrimitive(k: Kind)
    requires k != CharKind
    ensures Suggested(Boxed(k)).Ok? && Suggested(Primitive(k)).Ok?
    ensures Suggested(Boxed(k)).value.values == [Null] + Suggested(Primitive(k)).value.values
  {
  }

  /** The as-written generator wraps the intended one's whole value list in a
      single stream object: for byte it yields 1 value instead of 75. */
  lemma SuggestedAsWrittenWrapsIntended(cls: JavaClass)
    requires !cls.OtherClass? && IsNumeric(cls.kind)
    ensures SuggestedAsWritten(cls) == Ok(Finite([StreamObject(Suggested(cls).value.values)]))
    ensures cls == Primitive(ByteKind) ==>
      |SuggestedAsWritten(cls).value.values| == 1 && |Suggested(cls).value.values| == 75
  {
  }
}
