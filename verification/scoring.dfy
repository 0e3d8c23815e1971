/**
 * The rating aggregator of lib/api.ts: a score of 100 minus a penalty per
 * additive by risk level, clamped to [0, 100], and the grade of that score.
 */
module Scoring {
  import opened Types

  /** The grade and score of a product. */
  datatype Verdict = Verdict(rating: Rating, score: int)

  const HighPenalty := 30
  const MediumPenalty := 10
  const LowPenalty := 2

  /** How many additives of `s` have risk level `level`. */
  function CountRisk(s: seq<Additive>, level: string): (n: nat)
    ensures n <= |s|
  {
    if s == [] then 0
    else (if s[0].riskLevel == level then 1 else 0) + CountRisk(s[1..], level)
  }

  /** The risk levels of `s`, in order. */
  function RiskLevels(s: seq<Additive>): (r: seq<string>)
    ensures |r| == |s|
    ensures forall i :: 0 <= i < |s| ==> r[i] == s[i].riskLevel
  {
    if s == [] then [] else [s[0].riskLevel] + RiskLevels(s[1..])
  }

  /** `Math.max(0, Math.min(100, x))`. */
  function Clamp(x: int): (r: int)
    ensures 0 <= r <= 100
    ensures 0 <= x <= 100 ==> r == x
    ensures x < 0 ==> r == 0
    ensures x > 100 ==> r == 100
  {
    if x < 0 then 0 else if x > 100 then 100 else x
  }

  /** The grade of a score: inclusive lower bounds 80, 60 and 40. */
  function Tier(score: int): (g: Rating)
    ensures g == Excellent <==> score >= 80
    ensures g == Good <==> 60 <= score < 80
    ensures g == Poor <==> 40 <= score < 60
    ensures g == Bad <==> score < 40
  {
    if score >= 80 then Excellent
    else if score >= 60 then Good
    else if score >= 40 then Poor
    else Bad
  }

  /** The unclamped score of a non-empty additive list; penalties only ever lower it from 100. */
  function RawScore(s: seq<Additive>): (r: int)
    ensures r <= 100
    ensures r == 100 <==> CountRisk(s, "high") + CountRisk(s, "medium") + CountRisk(s, "low") == 0
  {
    100 - CountRisk(s, "high") * HighPenalty
        - CountRisk(s, "medium") * MediumPenalty
        - CountRisk(s, "low") * LowPenalty
  }

  /**
   * calculateRating. An empty list is Excellent with 100; otherwise the score
   * lies in [0, 100], never exceeds 100 minus the penalties it can afford,
   * and the grade is always the tier of the score.
   */
  function CalculateRating(additives: seq<Additive>): (v: Verdict)
    ensures 0 <= v.score <= 100
    ensures v.rating == Tier(v.score)
    ensures |additives| == 0 ==> v == Verdict(Excellent, 100)
    ensures |additives| > 0 && RawScore(additives) >= 0 ==> v.score == RawScore(additives)
    ensures |additives| > 0 && RawScore(additives) < 0 ==> v.score == 0
    ensures CountRisk(additives, "high") >= 4 ==> v == Verdict(Bad, 0)
    ensures v.score <= 100 - 2 * (CountRisk(additives, "high") + CountRisk(additives, "medium") + CountRisk(additives, "low"))
              || v.score == 0
  {
    if |additives| == 0 then Verdict(Excellent, 100)
    else
      var score := Clamp(RawScore(additives));
      Verdict(Tier(score), score)
  }

  /** A higher score never gets a worse grade. */
  lemma TierMonotone(a: int, b: int)
    requires a <= b
    ensures Tier(b).Rank() <= Tier(a).Rank()
  {
  }

  /** Counting a risk level is reading its multiplicity in the multiset of risk levels. */
  lemma {:induction false} CountIsMultiplicity(s: seq<Additive>, level: string)
    ensures CountRisk(s, level) == multiset(RiskLevels(s))[level]
  {
    if s != [] {
      CountIsMultiplicity(s[1..], level);
      assert RiskLevels(s) == [s[0].riskLevel] + RiskLevels(s[1..]);
    }
  }

  /**
   * The verdict depends only on the multiset of risk levels: reordering the
   * additives, or swapping one for another of equal risk, changes nothing.
   */
  lemma RatingDependsOnRiskMultiset(a: seq<Additive>, b: seq<Additive>)
    requires multiset(RiskLevels(a)) == multiset(RiskLevels(b))
    ensures CalculateRating(a) == CalculateRating(b)
  {
    CountIsMultiplicity(a, "high");
    CountIsMultiplicity(a, "medium");
    CountIsMultiplicity(a, "low");
    CountIsMultiplicity(b, "high");
    CountIsMultiplicity(b, "medium");
    CountIsMultiplicity(b, "low");
    assert |a| == |multiset(RiskLevels(a))| == |multiset(RiskLevels(b))| == |b|;
  }

  /** In particular, any permutation of the additives gets the same verdict. */
  lemma RatingPermutationInvariant(a: seq<Additive>, b: seq<Additive>)
    requires multiset(a) == multiset(b)
    ensures CalculateRating(a) == CalculateRating(b)
  {
    CountPermutation(a, b, "high");
    CountPermutation(a, b, "medium");
    CountPermutation(a, b, "low");
    assert |a| == |multiset(a)| == |multiset(b)| == |b|;
  }

  /** Equal multisets of additives have equal counts of each risk level. */
  lemma {:induction false} CountPermutation(a: seq<Additive>, b: seq<Additive>, level: string)
    requires multiset(a) == multiset(b)
    ensures CountRisk(a, level) == CountRisk(b, level)
    decreases |a|
  {
    if a == [] {
      assert |b| == |multiset(b)| == 0;
    } else {
      assert a[0] in multiset(b);
      var i :| 0 <= i < |b| && b[i] == a[0];
      RemoveMatching(a, b, i);
      CountPermutation(a[1..], b[..i] + b[i + 1..], level);
      CountRemoveAt(b, i, level);
    }
  }

  /** Removing the first entry of `a` and an equal entry of `b` keeps two permutations permutations. */
  lemma RemoveMatching(a: seq<Additive>, b: seq<Additive>, i: int)
    requires multiset(a) == multiset(b)
    requires |a| > 0 && 0 <= i < |b| && b[i] == a[0]
    ensures multiset(a[1..]) == multiset(b[..i] + b[i + 1..])
  {
    assert a == [a[0]] + a[1..];
    assert multiset(a[1..]) == multiset(a) - multiset{a[0]};
    MultisetRemoveAt(b, i);
  }

  lemma MultisetRemoveAt(s: seq<Additive>, i: int)
    requires 0 <= i < |s|
    ensures multiset(s[..i] + s[i + 1..]) == multiset(s) - multiset{s[i]}
  {
    assert s == s[..i] + [s[i]] + s[i + 1..];
  }

  lemma CountRemoveAt(s: seq<Additive>, i: int, level: string)
    requires 0 <= i < |s|
    ensures CountRisk(s, level) == CountRisk(s[..i] + s[i + 1..], level) + (if s[i].riskLevel == level then 1 else 0)
  {
    assert s == s[..i] + ([s[i]] + s[i + 1..]);
    CountAppend(s[..i], [s[i]] + s[i + 1..], level);
    CountAppend([s[i]], s[i + 1..], level);
    CountAppend(s[..i], s[i + 1..], level);
  }

  /** An additive whose risk level is none of the three known ones leaves the verdict unchanged. */
  lemma {:induction false} UnknownRiskIgnored(a: seq<Additive>, x: Additive)
    requires x.riskLevel != "high" && x.riskLevel != "medium" && x.riskLevel != "low"
    ensures CalculateRating(a + [x]) == CalculateRating(a)
  {
    CountAppend(a, [x], "high");
    CountAppend(a, [x], "medium");
    CountAppend(a, [x], "low");
  }

  lemma {:induction false} CountAppend(a: seq<Additive>, b: seq<Additive>, level: string)
    ensures CountRisk(a + b, level) == CountRisk(a, level) + CountRisk(b, level)
  {
    if a == [] {
      assert a + b == b;
    } else {
      assert (a + b)[0] == a[0];
      assert (a + b)[1..] == a[1..] + b;
      CountAppend(a[1..], b, level);
    }
  }

  /** Adding an additive never raises the score. */
  lemma {:induction false} ScoreNonIncreasing(a: seq<Additive>, x: Additive)
    ensures CalculateRating(a + [x]).score <= CalculateRating(a).score
  {
    CountAppend(a, [x], "high");
    CountAppend(a, [x], "medium");
    CountAppend(a, [x], "low");
  }

  /** A list of high-risk additives counts only as high risk. */
  lemma {:induction false} CountAllHigh(s: seq<Additive>)
    requires forall i :: 0 <= i < |s| ==> s[i].riskLevel == "high"
    ensures CountRisk(s, "high") == |s|
    ensures CountRisk(s, "medium") == 0 && CountRisk(s, "low") == 0
  {
    if s != [] {
      CountAllHigh(s[1..]);
    }
  }

  /** The worked examples: one, three and four high-risk additives. */
  lemma HighRiskExamples(x: Additive)
    requires x.riskLevel == "high"
    ensures CalculateRating([x]) == Verdict(Good, 70)
    ensures CalculateRating([x, x, x]) == Verdict(Bad, 10)
    ensures CalculateRating([x, x, x, x]) == Verdict(Bad, 0)
  {
    CountAllHigh([x]);
    CountAllHigh([x, x, x]);
    CountAllHigh([x, x, x, x]);
  }
}
