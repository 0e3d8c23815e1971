/**
 * Turning one upstream product payload into a Product (lib/api.ts): the
 * additive and nutrient extraction and the construction of the product
 * record, with the current time passed in as `now`.
 */
module Api {
  import opened Wrappers
  import opened Text
  import opened Types
  import opened Additives
  import opened Nutrients
  import opened Scoring

  /** The payload's `additives_tags` field: missing (or falsy), present but not an array, or an array of tags. */
  datatype TagField = TagsMissing | TagsNotArray | Tags(tags: seq<string>)

  /** The payload's per-100 g nutrient values; each may be absent. */
  datatype RawNutriments = RawNutriments(
    energy100g: Option<real>,
    fat100g: Option<real>,
    sugars100g: Option<real>,
    salt100g: Option<real>)

  /** The fields of the payload's `product` record that the normaliser reads. */
  datatype RawProduct = RawProduct(
    code: Option<string>,
    productName: Option<string>,
    brands: Option<string>,
    imageUrl: Option<string>,
    additivesTags: TagField,
    additivesOriginalTags: Option<seq<string>>,
    nutriments: Option<RawNutriments>)

  /** The upstream response: a numeric `status` (absent if not a number) and the product record. */
  datatype Payload = Payload(status: Option<real>, product: Option<RawProduct>)

  const UnknownProduct := "Unknown Product"
  const UnknownBrand := "Unknown Brand"

  /** JavaScript's `s || fallback` on an optional string: the empty string is falsy too. */
  function OrElse(s: Option<string>, fallback: string): (r: string)
    ensures s.Some? && s.value != "" ==> r == s.value
    ensures s.None? || s.value == "" ==> r == fallback
  {
    if s.Some? && s.value != "" then s.value else fallback
  }

  /** The first tag whose lower-cased text contains the lower-cased code. */
  function FindOriginalTag(tags: seq<string>, code: string): (r: Option<nat>)
    ensures r.Some? ==> r.value < |tags| && Includes(Lower(tags[r.value]), Lower(code))
    ensures r.Some? ==> forall j :: 0 <= j < r.value ==> !Includes(Lower(tags[j]), Lower(code))
    ensures r.None? ==> forall j :: 0 <= j < |tags| ==> !Includes(Lower(tags[j]), Lower(code))
  {
    if tags == [] then None
    else if Includes(Lower(tags[0]), Lower(code)) then Some(0)
    else
      var r := FindOriginalTag(tags[1..], code);
      assert forall j :: 1 <= j < |tags| ==> tags[j] == tags[1..][j - 1];
      if r.None? then None else Some(r.value + 1)
  }

  /**
   * The display name of an additive: the last segment of the first
   * original tag that mentions the code, or the code upper-cased when there
   * is no such tag or its last segment is empty.
   */
  function DisplayName(code: string, originalTags: Option<seq<string>>): (name: string)
    ensures originalTags.None? ==> name == Upper(code)
    ensures originalTags.Some? && FindOriginalTag(originalTags.value, code).None? ==> name == Upper(code)
    ensures originalTags.Some? && FindOriginalTag(originalTags.value, code).Some? ==>
              var t := originalTags.value[FindOriginalTag(originalTags.value, code).value];
              name == (if LastSegment(t) == "" then Upper(code) else LastSegment(t))
  {
    var fallback := Upper(code);
    match originalTags
    case None => fallback
    case Some(tags) =>
      match FindOriginalTag(tags, code)
      case None => fallback
      case Some(i) => if LastSegment(tags[i]) == "" then fallback else LastSegment(tags[i])
  }

  /** The additive record built from one non-empty code. */
  function MakeAdditive(code: string, originalTags: Option<seq<string>>): (a: Additive)
    ensures a.code == code
    ensures a.purpose == None && a.description == None && a.healthRisks == None
  {
    var info := AdditiveInfo(code);
    Additive(code, DisplayName(code, originalTags), info.category, None, info.riskLevel, None, None)
  }

  /** An extracted additive carries the classifier's function and risk level and the display name. */
  lemma ExtractedAdditiveClassified(code: string, originalTags: Option<seq<string>>)
    ensures var a := MakeAdditive(code, originalTags);
            && a.category == AdditiveInfo(code).category
            && a.riskLevel == AdditiveInfo(code).riskLevel
            && IsRiskLevel(a.riskLevel)
            && a.name == DisplayName(code, originalTags)
  {
  }

  /** `f` applied to every element of `s`, in order. */
  function MapSeq<A, B>(f: A -> B, s: seq<A>): (r: seq<B>)
    ensures |r| == |s|
    ensures forall i :: 0 <= i < |s| ==> r[i] == f(s[i])
  {
    if s == [] then [] else [f(s[0])] + MapSeq(f, s[1..])
  }

  /** Mapping distributes over concatenation. */
  lemma MapSeqAppend<A, B>(f: A -> B, s: seq<A>, t: seq<A>)
    ensures MapSeq(f, s + t) == MapSeq(f, s) + MapSeq(f, t)
  {
  }

  /** The codes of the non-empty last segments of `tags`, in order; none is empty or holds a colon. */
  function TagCodes(tags: seq<string>): (codes: seq<string>)
    ensures |codes| <= |tags|
    ensures forall i :: 0 <= i < |codes| ==> codes[i] != "" && ':' !in codes[i]
  {
    if tags == [] then []
    else
      LastSegmentSpec(tags[0]);
      (if LastSegment(tags[0]) == "" then [] else [LastSegment(tags[0])]) + TagCodes(tags[1..])
  }

  /** Taking codes distributes over concatenation of tag lists. */
  lemma {:induction false} TagCodesAppend(s: seq<string>, t: seq<string>)
    ensures TagCodes(s + t) == TagCodes(s) + TagCodes(t)
  {
    if s == [] {
      assert s + t == t;
    } else {
      assert (s + t)[0] == s[0];
      assert (s + t)[1..] == s[1..] + t;
      TagCodesAppend(s[1..], t);
    }
  }

  /**
   * The additives of a tag list: one per tag whose last segment is not
   * empty, in tag order and with duplicates kept.
   */
  function AdditivesOfTags(tags: seq<string>, originalTags: Option<seq<string>>): (r: seq<Additive>)
    ensures |r| <= |tags|
    ensures forall i :: 0 <= i < |r| ==> r[i].code != "" && ':' !in r[i].code
  {
    MapSeq(c => MakeAdditive(c, originalTags), TagCodes(tags))
  }

  /** Extraction distributes over concatenation of tag lists, so it keeps order and duplicates. */
  lemma AdditivesOfTagsAppend(s: seq<string>, t: seq<string>, originalTags: Option<seq<string>>)
    ensures AdditivesOfTags(s + t, originalTags) == AdditivesOfTags(s, originalTags) + AdditivesOfTags(t, originalTags)
  {
    TagCodesAppend(s, t);
    MapSeqAppend(c => MakeAdditive(c, originalTags), TagCodes(s), TagCodes(t));
  }

  /** One tag gives one additive coded by its last segment, or nothing when that segment is empty. */
  lemma AdditivesOfOneTag(tag: string, originalTags: Option<seq<string>>)
    ensures LastSegment(tag) == "" ==> AdditivesOfTags([tag], originalTags) == []
    ensures LastSegment(tag) != "" ==> AdditivesOfTags([tag], originalTags) == [MakeAdditive(LastSegment(tag), originalTags)]
  {
    assert [tag][1..] == [];
  }

  /** extractAdditives: no additives when the tag field is missing or is not an array. */
  function ExtractAdditives(p: RawProduct): (r: seq<Additive>)
    ensures !p.additivesTags.Tags? ==> r == []
    ensures p.additivesTags.Tags? ==> r == AdditivesOfTags(p.additivesTags.tags, p.additivesOriginalTags)
  {
    match p.additivesTags
    case Tags(tags) => AdditivesOfTags(tags, p.additivesOriginalTags)
    case _ => []
  }

  /** `Math.round`: the nearest integer, halves rounded up. */
  function Round(x: real): (r: int)
    ensures r as real - 0.5 <= x < r as real + 0.5
  {
    (x + 0.5).Floor
  }

  /** A nutrient reading in grams. */
  function GramReading(kind: string, v: Option<real>): (r: Option<Reading>)
    ensures r.Some? <==> v.Some?
    ensures r.Some? ==> r.value == Reading(v.value, "g", NutrientLevel(kind, v.value))
  {
    match v
    case None => None
    case Some(x) => Some(Reading(x, "g", NutrientLevel(kind, x)))
  }

  /**
   * extractNutriments: energy only for a truthy (present and non-zero) value,
   * rounded, with its level taken from the unrounded value; fat, sugars and
   * salt whenever present, unrounded.
   */
  function ExtractNutriments(p: RawProduct): (n: Nutriments)
    ensures p.nutriments.None? ==> n == NoNutriments
    ensures n.energy.Some? <==> p.nutriments.Some? && p.nutriments.value.energy100g.Some? && p.nutriments.value.energy100g.value != 0.0
    ensures n.energy.Some? ==>
              var e := p.nutriments.value.energy100g.value;
              n.energy.value == Reading(Round(e) as real, "kcal", NutrientLevel("energy", e))
    ensures n.fat.Some? <==> p.nutriments.Some? && p.nutriments.value.fat100g.Some?
    ensures n.sugars.Some? <==> p.nutriments.Some? && p.nutriments.value.sugars100g.Some?
    ensures n.salt.Some? <==> p.nutriments.Some? && p.nutriments.value.salt100g.Some?
    ensures n.fat.Some? ==>
              var x := p.nutriments.value.fat100g.value;
              n.fat.value == Reading(x, "g", NutrientLevel("fat", x))
    ensures n.sugars.Some? ==>
              var x := p.nutriments.value.sugars100g.value;
              n.sugars.value == Reading(x, "g", NutrientLevel("sugars", x))
    ensures n.salt.Some? ==>
              var x := p.nutriments.value.salt100g.value;
              n.salt.value == Reading(x, "g", NutrientLevel("salt", x))
  {
    match p.nutriments
    case None => NoNutriments
    case Some(raw) =>
      var energy :=
        match raw.energy100g
        case Some(e) =>
          if e != 0.0 then Some(Reading(Round(e) as real, "kcal", NutrientLevel("energy", e))) else None
        case None => None;
      Nutriments(energy, GramReading("fat", raw.fat100g), GramReading("sugars", raw.sugars100g), GramReading("salt", raw.salt100g))
  }

  /**
   * The payload-to-product step of fetchProductData: no product unless the
   * status is 1 and a product record is present; otherwise a product whose
   * name and brand are never empty, whose grade and score are those of its
   * own additives, and whose timestamp is `now`.
   */
  function Normalize(payload: Payload, now: int): (r: Option<Product>)
    ensures r.None? <==> payload.status != Some(1.0) || payload.product.None?
    ensures r.Some? ==> r.value.productName != "" && r.value.brands != ""
    ensures r.Some? ==> CalculateRating(r.value.additives) == Verdict(r.value.rating, r.value.ratingScore)
    ensures r.Some? ==> 0 <= r.value.ratingScore <= 100
    ensures r.Some? ==>
              var p := payload.product.value;
              && r.value.code == p.code
              && r.value.imageUrl == p.imageUrl
              && r.value.additives == ExtractAdditives(p)
              && r.value.nutriments == ExtractNutriments(p)
              && r.value.timestamp == now
    ensures r.Some? ==>
              var p := payload.product.value;
              && (p.productName.Some? && p.productName.value != "" ==> r.value.productName == p.productName.value)
              && (p.brands.Some? && p.brands.value != "" ==> r.value.brands == p.brands.value)
    ensures r.Some? ==>
              var p := payload.product.value;
              && (p.productName.None? || p.productName.value == "" ==> r.value.productName == UnknownProduct)
              && (p.brands.None? || p.brands.value == "" ==> r.value.brands == UnknownBrand)
  {
    if payload.status != Some(1.0) || payload.product.None? then None
    else
      var p := payload.product.value;
      var additives := ExtractAdditives(p);
      var verdict := CalculateRating(additives);
      Some(Product(
        p.code,
        OrElse(p.productName, UnknownProduct),
        OrElse(p.brands, UnknownBrand),
        p.imageUrl,
        additives,
        ExtractNutriments(p),
        verdict.rating,
        verdict.score,
        now))
  }

  /**
   * A payload whose only additive tag is "en:e621" and which has no
   * nutrient record gives one high-risk additive coded "e621" and no readings.
   */
  lemma MonosodiumGlutamateExample(code: Option<string>, now: int)
    ensures
      var p := RawProduct(code, None, None, None, Tags(["en:e621"]), None, None);
      var r := Normalize(Payload(Some(1.0), Some(p)), now);
      && r.Some?
      && |r.value.additives| == 1
      && r.value.additives[0].code == "e621"
      && r.value.additives[0].riskLevel == "high"
      && r.value.nutriments == NoNutriments
      && r.value.productName == UnknownProduct
      && r.value.rating == Good && r.value.ratingScore == 70
  {
    MonosodiumGlutamateTag();
    MonosodiumGlutamateRisk();
    var a := MakeAdditive("e621", None);
    HighRiskExamples(a);
    var p := RawProduct(code, None, None, None, Tags(["en:e621"]), None, None);
    assert ExtractAdditives(p) == [a];
  }

  /** The tag "en:e621" gives the single additive coded "e621". */
  lemma MonosodiumGlutamateTag()
    ensures AdditivesOfTags(["en:e621"], None) == [MakeAdditive("e621", None)]
  {
    LastSegmentAfterColon("en", "e621");
    assert "en:e621" == "en" + ":" + "e621";
    AdditivesOfOneTag("en:e621", None);
  }

  /** The table rates the additive "e621" high-risk. */
  lemma MonosodiumGlutamateRisk()
    ensures MakeAdditive("e621", None).riskLevel == "high"
  {
    ClassifyTableHit("e621");
    ExtractedAdditiveClassified("e621", None);
  }

  /** The energy level is taken before rounding: 399.6 kcal shows as 400 yet is only moderate. */
  lemma EnergyLevelBeforeRounding(p: RawProduct)
    requires p.nutriments == Some(RawNutriments(Some(399.6), None, None, None))
    ensures ExtractNutriments(p).energy == Some(Reading(400.0, "kcal", Moderate))
  {
  }

  /** An energy value of zero is falsy and gives no reading, while a zero fat value does. */
  lemma ZeroEnergyDropped(p: RawProduct)
    requires p.nutriments == Some(RawNutriments(Some(0.0), Some(0.0), None, None))
    ensures ExtractNutriments(p).energy == None
    ensures ExtractNutriments(p).fat == Some(Reading(0.0, "g", Low))
  {
  }
}
