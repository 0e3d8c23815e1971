/**
 * The nutrient level classifier of lib/api.ts: per-kind thresholds on a
 * per-100 g value, with closed-open tiers.
 */
module Nutrients {
  import opened Types

  /** The `high` and `moderate` thresholds of one nutrient kind. */
  datatype Thresholds = Thresholds(high: real, moderate: real)

  const ThresholdTable: map<string, Thresholds> := map[
    "energy" := Thresholds(400.0, 200.0),
    "fat" := Thresholds(17.5, 3.0),
    "saturated_fat" := Thresholds(5.0, 1.5),
    "sugars" := Thresholds(22.5, 5.0),
    "salt" := Thresholds(1.5, 0.3)
  ]

  /** Every tracked kind has its moderate threshold strictly below its high one. */
  lemma ThresholdsOrdered(kind: string)
    requires kind in ThresholdTable
    ensures ThresholdTable[kind].moderate < ThresholdTable[kind].high
  {
  }

  /**
   * getNutrimentLevel: `high` from the high threshold up, `moderate` from
   * the moderate threshold up to (excluding) the high one, `low` below; an
   * untracked kind is `moderate`.
   */
  function NutrientLevel(kind: string, value: real): (l: Level)
    ensures kind !in ThresholdTable ==> l == Moderate
    ensures kind in ThresholdTable ==>
              (l == High <==> value >= ThresholdTable[kind].high)
    ensures kind in ThresholdTable ==>
              (l == Moderate <==> ThresholdTable[kind].moderate <= value < ThresholdTable[kind].high)
    ensures kind in ThresholdTable ==>
              (l == Low <==> value < ThresholdTable[kind].moderate)
  {
    if kind !in ThresholdTable then Moderate
    else
      var t := ThresholdTable[kind];
      ThresholdsOrdered(kind);
      if value >= t.high then High
      else if value >= t.moderate then Moderate
      else Low
  }

  /** For each kind, a larger value never gets a lower tier. */
  lemma LevelMonotone(kind: string, v: real, w: real)
    requires v <= w
    ensures NutrientLevel(kind, v).Rank() <= NutrientLevel(kind, w).Rank()
  {
  }

  /** The boundary values belong to the higher tier. */
  lemma LevelBoundaries(kind: string)
    requires kind in ThresholdTable
    ensures NutrientLevel(kind, ThresholdTable[kind].high) == High
    ensures NutrientLevel(kind, ThresholdTable[kind].moderate) == Moderate
  {
    ThresholdsOrdered(kind);
  }
}
