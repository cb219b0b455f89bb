/**
 * Per-bucket statistics as the logger computes them: a running sum, and a
 * minimum and maximum seeded with the first sample (temperature_logger.hpp and
 * logger.cpp), plus the mean `sum / size`. Temperatures are exact reals.
 */
module Stats {

  /** Sum of the samples, accumulated left to right. */
  function Sum(xs: seq<real>): real
  {
    if xs == [] then 0.0 else Sum(xs[..|xs| - 1]) + xs[|xs| - 1]
  }

  /** Least sample, seeded with the first and replaced by any strictly smaller one. */
  function Min(xs: seq<real>): real
    requires xs != []
  {
    if |xs| == 1 then xs[0]
    else if xs[|xs| - 1] < Min(xs[..|xs| - 1]) then xs[|xs| - 1]
    else Min(xs[..|xs| - 1])
  }

  /** Greatest sample, seeded with the first and replaced by any strictly greater one. */
  function Max(xs: seq<real>): real
    requires xs != []
  {
    if |xs| == 1 then xs[0]
    else if xs[|xs| - 1] > Max(xs[..|xs| - 1]) then xs[|xs| - 1]
    else Max(xs[..|xs| - 1])
  }

  function Mean(xs: seq<real>): real
    requires xs != []
  {
    Sum(xs) / (|xs| as real)
  }

  /** One aggregate row: average, minimum, maximum and sample count. */
  datatype Summary = Summary(avg: real, min: real, max: real, count: int)

  /** The aggregate of a non-empty group of samples. */
  function SummaryOf(xs: seq<real>): Summary
    requires xs != []
  {
    Summary(Mean(xs), Min(xs), Max(xs), |xs|)
  }

  /** The minimum and the maximum are samples, and every sample lies between them. */
  lemma {:induction false} MinMaxAreBounds(xs: seq<real>)
    requires xs != []
    ensures Min(xs) in xs && Max(xs) in xs
    ensures forall k :: 0 <= k < |xs| ==> Min(xs) <= xs[k] <= Max(xs)
  {
    if |xs| > 1 {
      var init := xs[..|xs| - 1];
      MinMaxAreBounds(init);
      forall k | 0 <= k < |xs| - 1 ensures xs[k] == init[k] {
      }
    }
  }

  /** n samples in [lo, hi] sum to a value in [n * lo, n * hi]. */
  lemma {:induction false} SumBounds(xs: seq<real>, lo: real, hi: real)
    requires forall k :: 0 <= k < |xs| ==> lo <= xs[k] <= hi
    ensures (|xs| as real) * lo <= Sum(xs) <= (|xs| as real) * hi
  {
    if xs != [] {
      var init := xs[..|xs| - 1];
      assert forall k :: 0 <= k < |init| ==> init[k] == xs[k];
      SumBounds(init, lo, hi);
      assert (|xs| as real) * lo == (|init| as real) * lo + lo;
      assert (|xs| as real) * hi == (|init| as real) * hi + hi;
    }
  }

  lemma DivideBounds(a: real, n: real, lo: real, hi: real)
    requires n > 0.0 && n * lo <= a <= n * hi
    ensures lo <= a / n <= hi
  {
    assert (a / n) * n == a;
  }

  /** The aggregate of a group: count is the group size and min <= avg <= max. */
  lemma SummaryOfBounds(xs: seq<real>)
    requires xs != []
    ensures SummaryOf(xs).count == |xs| >= 1
    ensures SummaryOf(xs).min <= SummaryOf(xs).avg <= SummaryOf(xs).max
    ensures SummaryOf(xs).min in xs && SummaryOf(xs).max in xs
    ensures forall k :: 0 <= k < |xs| ==> SummaryOf(xs).min <= xs[k] <= SummaryOf(xs).max
  {
    MinMaxAreBounds(xs);
    SumBounds(xs, Min(xs), Max(xs));
    DivideBounds(Sum(xs), |xs| as real, Min(xs), Max(xs));
  }

  /**
   * The loop of processHourlyBuffer/processDailyBuffer over one group:
   * `sum += temp`, and min/max replaced by a strictly smaller/greater sample.
   */
  method Summarize(temps: seq<real>) returns (s: Summary)
    requires temps != []
    ensures s == SummaryOf(temps)
  {
    var sum := 0.0;
    var minTemp := temps[0];
    var maxTemp := temps[0];
    var i := 0;
    while i < |temps|
      invariant 0 <= i <= |temps|
      invariant sum == Sum(temps[..i])
      invariant i == 0 ==> minTemp == temps[0] && maxTemp == temps[0]
      invariant i > 0 ==> minTemp == Min(temps[..i]) && maxTemp == Max(temps[..i])
    {
      var temp := temps[i];
      assert temps[..i + 1][..i] == temps[..i];
      sum := sum + temp;
      if temp < minTemp {
        minTemp := temp;
      }
      if temp > maxTemp {
        maxTemp := temp;
      }
      i := i + 1;
    }
    assert temps[..i] == temps;
    s := Summary(sum / (|temps| as real), minTemp, maxTemp, |temps|);
  }

  // ---------------------------------------------------------------------------
  // Buckets: std::map<std::string, std::vector<double>> filled by push_back
  // ---------------------------------------------------------------------------

  /** `groups[key].push_back(sample)`, creating the bucket when it is missing. */
  function AddSample(groups: map<seq<char>, seq<real>>, key: seq<char>, sample: real): map<seq<char>, seq<real>>
  {
    groups[key := (if key in groups then groups[key] else []) + [sample]]
  }

  /** Adds the (key, sample) pairs one after the other. */
  function GroupInto(groups: map<seq<char>, seq<real>>, pairs: seq<(seq<char>, real)>): map<seq<char>, seq<real>>
  {
    if pairs == [] then groups
    else AddSample(GroupInto(groups, pairs[..|pairs| - 1]), pairs[|pairs| - 1].0, pairs[|pairs| - 1].1)
  }

  /** The samples of the pairs with key `k`, in order. */
  function SamplesFor(pairs: seq<(seq<char>, real)>, k: seq<char>): seq<real>
  {
    if pairs == [] then []
    else SamplesFor(pairs[..|pairs| - 1], k) + (if pairs[|pairs| - 1].0 == k then [pairs[|pairs| - 1].1] else [])
  }

  /** Some pair has key `k`. */
  predicate Mentions(pairs: seq<(seq<char>, real)>, k: seq<char>) {
    exists i :: 0 <= i < |pairs| && pairs[i].0 == k
  }

  /**
   * After the pairs are added there is a bucket for every old key and every new key and
   * no other, and each bucket holds its old samples followed by its new ones in order.
   */
  lemma {:induction false} GroupIntoCorrect(groups: map<seq<char>, seq<real>>, pairs: seq<(seq<char>, real)>)
    ensures forall k :: k in GroupInto(groups, pairs) <==> k in groups || Mentions(pairs, k)
    ensures forall k :: k in GroupInto(groups, pairs) ==>
                        GroupInto(groups, pairs)[k] == (if k in groups then groups[k] else []) + SamplesFor(pairs, k)
  {
    if pairs != [] {
      GroupIntoCorrect(groups, pairs[..|pairs| - 1]);
      forall k ensures k in GroupInto(groups, pairs) <==> k in groups || Mentions(pairs, k) {
        MentionsStep(pairs, k);
      }
      forall k | k in GroupInto(groups, pairs)
        ensures GroupInto(groups, pairs)[k] == (if k in groups then groups[k] else []) + SamplesFor(pairs, k)
      {
        GroupIntoBucketStep(groups, pairs, k);
      }
    }
  }

  /** The pairs mention a key when their prefix does or their last pair has it. */
  lemma {:induction false} MentionsStep(pairs: seq<(seq<char>, real)>, k: seq<char>)
    requires pairs != []
    ensures Mentions(pairs, k) <==> Mentions(pairs[..|pairs| - 1], k) || pairs[|pairs| - 1].0 == k
  {
    var init := pairs[..|pairs| - 1];
    if Mentions(init, k) {
      var i :| 0 <= i < |init| && init[i].0 == k;
      assert pairs[i] == init[i];
    }
    if Mentions(pairs, k) && pairs[|pairs| - 1].0 != k {
      var i :| 0 <= i < |pairs| && pairs[i].0 == k;
      assert init[i] == pairs[i];
    }
  }

  /** Adding the last pair keeps every bucket equal to its old samples followed by its new ones. */
  lemma {:induction false} GroupIntoBucketStep(groups: map<seq<char>, seq<real>>, pairs: seq<(seq<char>, real)>, k: seq<char>)
    requires pairs != []
    requires var init := pairs[..|pairs| - 1];
             forall k :: k in GroupInto(groups, init) ==>
               GroupInto(groups, init)[k] == (if k in groups then groups[k] else []) + SamplesFor(init, k)
    requires var init := pairs[..|pairs| - 1];
             forall k :: k in GroupInto(groups, init) <==> k in groups || Mentions(init, k)
    requires k in GroupInto(groups, pairs)
    ensures GroupInto(groups, pairs)[k] == (if k in groups then groups[k] else []) + SamplesFor(pairs, k)
  {
    var init := pairs[..|pairs| - 1];
    var last := pairs[|pairs| - 1];
    if k != last.0 {
      assert k in GroupInto(groups, init);
      assert SamplesFor(pairs, k) == SamplesFor(init, k);
    } else {
      SamplesForNonEmpty(init, k);
      assert SamplesFor(pairs, k) == SamplesFor(init, k) + [last.1];
    }
  }

  /** SamplesFor is non-empty exactly for the keys the pairs mention. */
  lemma {:induction false} SamplesForNonEmpty(pairs: seq<(seq<char>, real)>, k: seq<char>)
    ensures SamplesFor(pairs, k) != [] <==> Mentions(pairs, k)
  {
    if pairs != [] {
      var init := pairs[..|pairs| - 1];
      SamplesForNonEmpty(init, k);
      if Mentions(pairs, k) {
        var i :| 0 <= i < |pairs| && pairs[i].0 == k;
        if i < |pairs| - 1 {
          assert init[i] == pairs[i];
        }
      }
      if Mentions(init, k) {
        var i :| 0 <= i < |init| && init[i].0 == k;
        assert pairs[i] == init[i];
      }
    }
  }

  /** One aggregate per non-empty bucket. */
  function GroupSummaries(groups: map<seq<char>, seq<real>>): map<seq<char>, Summary>
  {
    map k | k in groups && groups[k] != [] :: SummaryOf(groups[k])
  }

  /**
   * Each aggregate counts its bucket's samples; its minimum and maximum are samples of
   * the bucket that bound every sample and the average.
   */
  lemma GroupSummariesCorrect(groups: map<seq<char>, seq<real>>, k: seq<char>)
    requires k in GroupSummaries(groups)
    ensures k in groups && groups[k] != []
    ensures var s := GroupSummaries(groups)[k];
            && s.count == |groups[k]|
            && s.min <= s.avg <= s.max
            && s.min in groups[k] && s.max in groups[k]
            && forall j :: 0 <= j < |groups[k]| ==> s.min <= groups[k][j] <= s.max
  {
    SummaryOfBounds(groups[k]);
  }
}
