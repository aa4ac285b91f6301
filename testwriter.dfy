/** The small helpers of jwp.fuzz.TestWriter that this model covers: class-name
    splitting in Config and the counting test-method namer. */
module TestWriting {
  import opened Wrappers
  import opened Generators

  /** String.lastIndexOf(c): the last index holding c, or -1. */
  function LastIndexOf(s: string, c: char): (r: int)
    ensures -1 <= r < |s|
    ensures r == -1 <==> c !in s
    ensures r >= 0 ==> s[r] == c && c !in s[r + 1..]
    decreases |s|
  {
    if s == [] then -1
    else if s[|s| - 1] == c then |s| - 1
    else
      var r := LastIndexOf(s[..|s| - 1], c);
      assert s == s[..|s| - 1] + [s[|s| - 1]];
      r
  }

  /** Config.getSimpleClassName(): the text after the last '.', or the whole
      name when there is none. */
  function SimpleClassName(className: string): (r: string)
    ensures '.' !in r
    ensures '.' !in className ==> r == className
    ensures |r| <= |className| && r == className[|className| - |r|..]
    ensures '.' in className ==> |r| < |className| && className[|className| - |r| - 1] == '.'
  {
    className[LastIndexOf(className, '.') + 1..]
  }

  /** substring(0, -1) throws StringIndexOutOfBoundsException. */
  datatype StringError = StringIndexOutOfBounds

  /** Config.getPackageName(): the text before the last '.'; it throws when the
      name has no '.'. Otherwise package, '.' and simple name give back the
      whole class name. */
  function PackageName(className: string): (r: Result<string, StringError>)
    ensures r.Failure? <==> '.' !in className
    ensures r.Ok? ==> r.value + "." + SimpleClassName(className) == className
  {
    var i := LastIndexOf(className, '.');
    if i < 0 then Failure(StringIndexOutOfBounds)
    else
      assert className == className[..i] + "." + className[i + 1..];
      Ok(className[..i])
  }

  // ---------------------------------------------------------------------------
  // Decimal rendering of the counters (Java's string concatenation of an int)

  function Digit(d: nat): char
    requires d < 10
  {
    ('0' as int + d) as char
  }

  function Decimal(n: nat): (r: string)
    ensures |r| >= 1
    ensures (|r| == 1) == (n < 10)
    ensures IsDigits(r)
    decreases n
  {
    if n < 10 then [Digit(n)] else Decimal(n / 10) + [Digit(n % 10)]
  }

  predicate IsDigits(s: string)
  {
    forall i :: 0 <= i < |s| ==> '0' <= s[i] <= '9'
  }

  /** The number a string of decimal digits denotes, most significant first. */
  function DigitsValue(s: string): (r: nat)
    requires IsDigits(s)
    decreases |s|
  {
    if s == [] then 0 else DigitsValue(s[..|s| - 1]) * 10 + (s[|s| - 1] as int - '0' as int)
  }

  /** Reading the rendered count back gives the count. */
  lemma {:induction false} DecimalValue(n: nat)
    ensures DigitsValue(Decimal(n)) == n
    decreases n
  {
    var d := Decimal(n);
    if n >= 10 {
      assert d[..|d| - 1] == Decimal(n / 10);
      DecimalValue(n / 10);
    }
  }

  /** Different counts render differently. */
  lemma {:induction false} DecimalInjective(a: nat, b: nat)
    requires Decimal(a) == Decimal(b)
    ensures a == b
    decreases a
  {
    var da, db := Decimal(a), Decimal(b);
    if a >= 10 && b >= 10 {
      assert da[..|da| - 1] == Decimal(a / 10);
      assert db[..|db| - 1] == Decimal(b / 10);
      DecimalInjective(a / 10, b / 10);
      assert Digit(a % 10) == da[|da| - 1] == db[|db| - 1] == Digit(b % 10);
    } else {
      assert da[0] == db[0];
    }
  }

  const SuccessTag: string := "Success"
  const FailTag: string := "Fail"

  /** Two names built from one prefix are equal only for the same tag and count. */
  lemma NamesDistinct(prefix: string, tagA: string, a: nat, tagB: string, b: nat)
    requires tagA in {SuccessTag, FailTag} && tagB in {SuccessTag, FailTag}
    requires prefix + tagA + Decimal(a) == prefix + tagB + Decimal(b)
    ensures tagA == tagB && a == b
  {
    var na, nb := prefix + tagA + Decimal(a), prefix + tagB + Decimal(b);
    assert na[|prefix|] == tagA[0] && nb[|prefix|] == tagB[0];
    assert tagA == tagB;
    assert na[|prefix| + |tagA|..] == Decimal(a);
    assert nb[|prefix| + |tagB|..] == Decimal(b);
    DecimalInjective(a, b);
  }

  /** Namer.SuccessOrFailCounted: names a test "<prefix>Fail<n>" or
      "<prefix>Success<m>", counting each kind separately. issued is the set of
      names handed out so far. */
  class SuccessOrFailCounted {
    const prefix: string
    var successCount: nat
    var failureCount: nat
    ghost var issued: set<string>

    ghost predicate Valid()
      reads this
    {
      forall name :: name in issued ==>
        (exists k :: 1 <= k <= successCount && name == prefix + SuccessTag + Decimal(k)) ||
        (exists k :: 1 <= k <= failureCount && name == prefix + FailTag + Decimal(k))
    }

    constructor (prefix: string)
      ensures Valid() && this.prefix == prefix
      ensures successCount == 0 && failureCount == 0 && issued == {}
    {
      this.prefix := prefix;
      successCount := 0;
      failureCount := 0;
      issued := {};
    }

    /** name(result): counts the result's kind and returns a name never handed
        out before by this namer; the other counter is unchanged. */
    method Name<T>(result: ExecutionResult<T>) returns (name: string)
      requires Valid()
      modifies this
      ensures Valid()
      ensures result.failed ==> failureCount == old(failureCount) + 1 && successCount == old(successCount)
      ensures result.failed ==> name == prefix + FailTag + Decimal(failureCount)
      ensures !result.failed ==> successCount == old(successCount) + 1 && failureCount == old(failureCount)
      ensures !result.failed ==> name == prefix + SuccessTag + Decimal(successCount)
      ensures name !in old(issued) && issued == old(issued) + {name}
    {
      var tag, count;
      if result.failed {
        failureCount := failureCount + 1;
        tag, count := FailTag, failureCount;
      } else {
        successCount := successCount + 1;
        tag, count := SuccessTag, successCount;
      }
      name := prefix + tag + Decimal(count);
      if name in issued {
        if k :| 1 <= k <= old(successCount) && name == prefix + SuccessTag + Decimal(k) {
          NamesDistinct(prefix, tag, count, SuccessTag, k);
        } else {
          var k :| 1 <= k <= old(failureCount) && name == prefix + FailTag + Decimal(k);
          NamesDistinct(prefix, tag, count, FailTag, k);
        }
        assert false;
      }
      issued := issued + {name};
    }
  }

  /** TestWriter.Config: the class name to write and the namer to use. */
  class Config {
    const className: string
    const namer: SuccessOrFailCounted

    /** Config(className): the default namer counts with prefix "test". */
    constructor (className: string)
      ensures this.className == className && fresh(namer)
      ensures namer.prefix == "test" && namer.Valid()
      ensures namer.successCount == 0 && namer.failureCount == 0 && namer.issued == {}
    {
      this.className := className;
      namer := new SuccessOrFailCounted("test");
    }

    constructor WithNamer(className: string, namer: SuccessOrFailCounted)
      ensures this.className == className && this.namer == namer
    {
      this.className := className;
      this.namer := namer;
    }
  }
}
