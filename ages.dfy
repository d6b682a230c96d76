/**
 * The age distribution of uploadCsv: every stored age is counted in one of four groups,
 * and each count becomes its share of the total, as a percentage.
 */
module Ages {
  import opened Wrappers

  /** The four groups: "<20", "20-40", "40-60", ">60". */
  datatype Bucket = Under20 | From20To40 | From40To60 | Over60

  /** The groups in the order the report lists them. */
  const AllBuckets: seq<Bucket> := [Under20, From20To40, From40To60, Over60]

  /** The if/else chain of the counting loop: below 20, up to 40, up to 60, and the rest. */
  function BucketOf(a: int): (b: Bucket)
    ensures b == Under20 <==> a < 20
    ensures b == From20To40 <==> 20 <= a <= 40
    ensures b == From40To60 <==> 40 < a <= 60
    ensures b == Over60 <==> a > 60
  {
    if a < 20 then Under20
    else if a <= 40 then From20To40
    else if a <= 60 then From40To60
    else Over60
  }

  /** How many of the ages fall in group b. */
  function CountIn(ages: seq<int>, b: Bucket): (k: nat)
    ensures k <= |ages|
  {
    if ages == [] then 0
    else CountIn(ages[..|ages| - 1], b) + (if BucketOf(ages[|ages| - 1]) == b then 1 else 0)
  }

  /** The four counts add up to the number of ages: every age is counted exactly once. */
  lemma {:induction false} CountsCoverAll(ages: seq<int>)
    ensures CountIn(ages, Under20) + CountIn(ages, From20To40) + CountIn(ages, From40To60)
          + CountIn(ages, Over60) == |ages|
  {
    if ages != [] {
      CountsCoverAll(ages[..|ages| - 1]);
    }
  }

  /** Counting more ages adds their counts. */
  lemma {:induction false} CountAppend(a: seq<int>, b: seq<int>, g: Bucket)
    ensures CountIn(a + b, g) == CountIn(a, g) + CountIn(b, g)
    decreases |b|
  {
    if b == [] {
      assert a + b == a;
    } else {
      assert (a + b)[..|a + b| - 1] == a + b[..|b| - 1];
      CountAppend(a, b[..|b| - 1], g);
    }
  }

  /** The counting loop over the ages. */
  method CountBuckets(ages: seq<int>) returns (groups: map<Bucket, nat>)
    ensures forall b :: b in groups && groups[b] == CountIn(ages, b)
  {
    groups := map[Under20 := 0, From20To40 := 0, From40To60 := 0, Over60 := 0];
    var i := 0;
    assert ages[..0] == [];
    forall b ensures b in groups {
      match b
      case Under20 =>
      case From20To40 =>
      case From40To60 =>
      case Over60 =>
    }
    while i < |ages|
      invariant 0 <= i <= |ages|
      invariant forall b :: b in groups && groups[b] == CountIn(ages[..i], b)
    {
      var a := ages[i];
      assert ages[..i + 1][..i] == ages[..i];
      if a < 20 {
        groups := groups[Under20 := groups[Under20] + 1];
      } else if a <= 40 {
        groups := groups[From20To40 := groups[From20To40] + 1];
      } else if a <= 60 {
        groups := groups[From40To60 := groups[From40To60] + 1];
      } else {
        groups := groups[Over60 := groups[Over60] + 1];
      }
      i := i + 1;
    }
    assert ages[..i] == ages;
  }

  /** One reported cell: a percentage, or N/A when the age query failed. */
  datatype Cell = Percent(value: real) | NotAvailable

  /** (count / total) * 100, or 0 when there are no ages. */
  function Share(count: nat, total: nat): real {
    if total == 0 then 0.0 else (count as real / total as real) * 100.0
  }

  /** A share lies between 0 and 100. */
  lemma ShareBounds(count: nat, total: nat)
    requires count <= total
    ensures 0.0 <= Share(count, total) <= 100.0
  {
    if total > 0 {
      assert count as real / total as real <= 1.0;
    }
  }

  /** The shares of counts that add up to the total add up to 100. */
  lemma SharesSum(a: nat, b: nat, c: nat, d: nat)
    requires a + b + c + d > 0
    ensures Share(a, a + b + c + d) + Share(b, a + b + c + d) + Share(c, a + b + c + d)
          + Share(d, a + b + c + d) == 100.0
  {
    var n := a + b + c + d;
    var t := n as real;
    var k := 100.0 / t;
    ShareScaled(a, n);
    ShareScaled(b, n);
    ShareScaled(c, n);
    ShareScaled(d, n);
    assert a as real * k + b as real * k + c as real * k + d as real * k
        == (a as real + b as real + c as real + d as real) * k;
    assert t * k == 100.0;
  }

  /** A share is the count times 100 / total. */
  lemma ShareScaled(count: nat, total: nat)
    requires total > 0
    ensures Share(count, total) == count as real * (100.0 / total as real)
  {
  }

  /** The percentage of each group, as the rewrite loop over the keys leaves them. */
  function Distribution(ages: seq<int>): map<Bucket, Cell> {
    map b | b in AllBuckets :: Percent(Share(CountIn(ages, b), |ages|))
  }

  /** The report when the age query failed: N/A in every group. */
  function Unavailable(): map<Bucket, Cell> {
    map b | b in AllBuckets :: NotAvailable
  }

  /** The rewrite loop `for (let key in groups)`: each count becomes its share of the total. */
  method ToPercentages(groups: map<Bucket, nat>, total: nat) returns (shares: map<Bucket, Cell>)
    requires forall b :: b in groups
    ensures forall b :: b in shares && shares[b] == Percent(Share(groups[b], total))
  {
    shares := map[];
    var i := 0;
    while i < |AllBuckets|
      invariant 0 <= i <= |AllBuckets|
      invariant shares.Keys == set j | 0 <= j < i :: AllBuckets[j]
      invariant forall b :: b in shares ==> shares[b] == Percent(Share(groups[b], total))
    {
      var key := AllBuckets[i];
      shares := shares[key := if total > 0 then Percent((groups[key] as real / total as real) * 100.0) else Percent(0.0)];
      i := i + 1;
    }
    forall b ensures b in shares {
      assert b == AllBuckets[0] || b == AllBuckets[1] || b == AllBuckets[2] || b == AllBuckets[3];
    }
  }

  /**
   * The age block of uploadCsv: the ages of the table when the query succeeds, None when it
   * fails; N/A in every group on failure, otherwise each group's percentage.
   */
  method AgeDistribution(ages: Option<seq<int>>) returns (shares: map<Bucket, Cell>)
    ensures shares == if ages.Some? then Distribution(ages.value) else Unavailable()
  {
    if ages.None? {
      return Unavailable();
    }
    var groups := CountBuckets(ages.value);
    var total := |ages.value|;
    shares := ToPercentages(groups, total);
    assert shares.Keys == Distribution(ages.value).Keys by {
      forall b ensures b in AllBuckets {
        match b
        case Under20 => assert AllBuckets[0] == b;
        case From20To40 => assert AllBuckets[1] == b;
        case From40To60 => assert AllBuckets[2] == b;
        case Over60 => assert AllBuckets[3] == b;
      }
    }
  }

  /** With ages, the four percentages add up to 100; with none, every group shows 0. */
  lemma DistributionTotals(ages: seq<int>)
    ensures |ages| > 0 ==>
      Distribution(ages)[Under20].value + Distribution(ages)[From20To40].value
      + Distribution(ages)[From40To60].value + Distribution(ages)[Over60].value == 100.0
    ensures |ages| == 0 ==> forall b :: b in Distribution(ages) ==> Distribution(ages)[b] == Percent(0.0)
  {
    assert Under20 in AllBuckets && From20To40 in AllBuckets && From40To60 in AllBuckets && Over60 in AllBuckets;
    if |ages| > 0 {
      CountsCoverAll(ages);
      SharesSum(CountIn(ages, Under20), CountIn(ages, From20To40), CountIn(ages, From40To60), CountIn(ages, Over60));
    }
  }

  /** The sample ages 10, 20, 40, 41, 70: one, two, one and one, that is 20, 40, 20 and 20 percent. */
  lemma SampleDistribution()
    ensures var ages := [10, 20, 40, 41, 70];
      && CountIn(ages, Under20) == 1 && CountIn(ages, From20To40) == 2
      && CountIn(ages, From40To60) == 1 && CountIn(ages, Over60) == 1
      && Distribution(ages)[Under20] == Percent(20.0) && Distribution(ages)[From20To40] == Percent(40.0)
      && Distribution(ages)[From40To60] == Percent(20.0) && Distribution(ages)[Over60] == Percent(20.0)
  {
    var ages := [10, 20, 40, 41, 70];
    var p1, p2, p3, p4 := [10], [10, 20], [10, 20, 40], [10, 20, 40, 41];
    assert p1[..0] == [] && p2[..1] == p1 && p3[..2] == p2 && p4[..3] == p3 && ages[..4] == p4;
    assert BucketOf(10) == Under20 && BucketOf(20) == From20To40 && BucketOf(40) == From20To40;
    assert BucketOf(41) == From40To60 && BucketOf(70) == Over60;
    assert CountIn(p4, Under20) == 1 && CountIn(p4, From20To40) == 2;
    assert Under20 in AllBuckets && From20To40 in AllBuckets && From40To60 in AllBuckets && Over60 in AllBuckets;
  }
}
