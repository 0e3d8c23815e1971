/**
 * The additive classifier of lib/api.ts: a static table from additive
 * code to function and risk level with a conservative fallback, and the
 * curated detail records shown on an additive's page.
 */
module Additives {
  import opened Wrappers
  import opened Text
  import opened Types

  /** What the classifier knows of an additive: its function and its risk level. */
  datatype Info = Info(category: string, riskLevel: string)

  /** The reference table, keyed by lower-case `e`-prefixed code. */
  const InfoTable: map<string, Info> := map[
    "e100" := Info("Food coloring", "low"),
    "e101" := Info("Food coloring", "low"),
    "e102" := Info("Food coloring", "high"),
    "e104" := Info("Food coloring", "high"),
    "e200" := Info("Preservative", "medium"),
    "e210" := Info("Preservative", "high"),
    "e220" := Info("Preservative", "high"),
    "e300" := Info("Antioxidant", "low"),
    "e301" := Info("Antioxidant", "low"),
    "e310" := Info("Antioxidant", "medium"),
    "e400" := Info("Thickener", "low"),
    "e407" := Info("Thickener", "medium"),
    "e620" := Info("Flavor enhancer", "medium"),
    "e621" := Info("Flavor enhancer", "high"),
    "e950" := Info("Sweetener", "medium"),
    "e951" := Info("Sweetener", "medium"),
    "e551" := Info("Anticaking agent", "high")
  ]

  /** Unknown additives are assumed to be of medium risk. */
  const DefaultInfo := Info("Food additive", "medium")

  predicate IsRiskLevel(s: string) {
    s == "high" || s == "medium" || s == "low"
  }

  /** Drops one leading `e`, as `replace(/^e/, "")` does. */
  function StripLeadingE(s: string): (r: string)
    ensures |s| > 0 && s[0] == 'e' ==> s == "e" + r
    ensures !(|s| > 0 && s[0] == 'e') ==> r == s
  {
    if |s| > 0 && s[0] == 'e' then s[1..] else s
  }

  /** The code lower-cased with at most one leading `e` removed. */
  function NormalizedCode(code: string): (n: string)
    ensures IsLowerCase(n)
  {
    StripLeadingE(Lower(code))
  }

  /** The table key the classifier looks up: `e` followed by the normalised code. */
  function LookupKey(code: string): string {
    "e" + NormalizedCode(code)
  }

  /**
   * getAdditiveInfo: the table entry for the code's key, or the default.
   * Classification never fails, every answer carries one of the three risk
   * levels, and the default is returned exactly when the key is missing
   * (no table entry coincides with it).
   */
  function AdditiveInfo(code: string): (info: Info)
    ensures IsRiskLevel(info.riskLevel)
    ensures info == DefaultInfo <==> LookupKey(code) !in InfoTable
    ensures info == DefaultInfo || info in InfoTable.Values
  {
    var key := LookupKey(code);
    if key in InfoTable then InfoTable[key] else DefaultInfo
  }

  /** The key of a normalised code is its own key: normalising twice changes nothing. */
  lemma {:induction false} LookupKeyIdempotent(code: string)
    ensures NormalizedCode(LookupKey(code)) == NormalizedCode(code)
    ensures LookupKey(LookupKey(code)) == LookupKey(code)
  {
    var n := NormalizedCode(code);
    LowerAppend("e", n);
    LowerOfLowerCase(n);
    assert Lower("e") == "e";
    assert Lower("e" + n) == "e" + n;
  }

  /** Classification depends only on the normalised code. */
  lemma ClassifyDependsOnNormalizedCode(a: string, b: string)
    requires NormalizedCode(a) == NormalizedCode(b)
    ensures AdditiveInfo(a) == AdditiveInfo(b)
  {
  }

  /** A code and its canonical `e`-prefixed key classify alike. */
  lemma ClassifyCanonical(code: string)
    ensures AdditiveInfo(LookupKey(code)) == AdditiveInfo(code)
  {
    LookupKeyIdempotent(code);
  }

  /**
   * A bare code with no leading `e`, the same code with `e` and with `E`
   * in front all classify alike ("621", "e621", "E621").
   */
  lemma {:induction false} ClassifyIgnoresPrefix(n: string)
    requires IsLowerCase(n)
    requires |n| == 0 || n[0] != 'e'
    ensures AdditiveInfo("e" + n) == AdditiveInfo(n)
    ensures AdditiveInfo("E" + n) == AdditiveInfo(n)
  {
    LowerOfLowerCase(n);
    LowerAppend("e", n);
    LowerAppend("E", n);
    assert Lower("e") == "e" && Lower("E") == "e";
    assert NormalizedCode(n) == n;
    assert NormalizedCode("e" + n) == n;
    assert NormalizedCode("E" + n) == n;
  }

  /** Every table key is `e` followed by lower-case characters other than a leading `e`. */
  lemma TableKeysAreCanonical(k: string)
    requires k in InfoTable
    ensures |k| > 1 && k[0] == 'e' && k[1] != 'e' && IsLowerCase(k)
  {
  }

  /** A table hit returns the entry verbatim, whether the code is written `e621`, `E621` or `621`. */
  lemma {:induction false} ClassifyTableHit(k: string)
    requires k in InfoTable
    ensures AdditiveInfo(k) == InfoTable[k]
    ensures AdditiveInfo(k[1..]) == InfoTable[k]
    ensures AdditiveInfo("E" + k[1..]) == InfoTable[k]
  {
    TableKeysAreCanonical(k);
    var n := k[1..];
    assert k == "e" + n;
    assert IsLowerCase(n);
    ClassifyIgnoresPrefix(n);
    LowerOfLowerCase(n);
    assert NormalizedCode(n) == n;
  }

  const NotAvailable := "Detailed information about this additive is not available."

  const BlueCircle := "\U{1F535}"

  /** The curated detail records, keyed by normalised code (no `e`). */
  const CuratedDetails: map<string, Additive> := map[
    "551" := Additive(
      "e551", "Silicon dioxide", "Anticaking agent",
      Some("Ensures the fluidity of a powdered product by limiting the agglutination of the particles"),
      "high",
      Some("This additive may contain nanoparticles, small molecules capable of crossing the intestinal barrier, accumulating in organs, and disrupting the gut microbiota, potentially leading to inflammatory bowel diseases. By disturbing the immune response, it could, in particular, promote the onset of celiac disease in certain individuals."),
      Some([HealthRisk("Adverse effects on the liver", BlueCircle), HealthRisk("Adverse effects on the kidneys", BlueCircle)])),
    "621" := Additive(
      "e621", "Monosodium glutamate", "Flavor enhancer",
      Some("Enhances the taste and aroma of food"),
      "high",
      Some("Monosodium glutamate (MSG) is a flavor enhancer commonly added to Chinese food, canned vegetables, soups, and processed meats. Some people report adverse reactions to MSG, including headache, flushing, sweating, facial pressure, numbness, heart palpitations, chest pain, nausea, and weakness."),
      Some([HealthRisk("Headaches", BlueCircle), HealthRisk("Allergic reactions", BlueCircle)])),
    "300" := Additive(
      "e300", "Ascorbic acid (Vitamin C)", "Antioxidant",
      Some("Prevents food from oxidizing and changing color"),
      "low",
      Some("Ascorbic acid, also known as Vitamin C, is a natural antioxidant that helps prevent food from browning and protects against oxidation. It is considered safe and has health benefits as an essential vitamin."),
      Some([]))
  ]

  /** Each curated record carries its canonical code and the table's function and risk level. */
  lemma CuratedAgreesWithTable(n: string)
    requires n in CuratedDetails
    ensures "e" + n in InfoTable
    ensures CuratedDetails[n].code == "e" + n
    ensures CuratedDetails[n].category == InfoTable["e" + n].category
    ensures CuratedDetails[n].riskLevel == InfoTable["e" + n].riskLevel
  {
    if n == "551" {
      assert "e" + n == "e551";
    } else if n == "621" {
      assert "e" + n == "e621";
    } else {
      assert "e" + n == "e300";
    }
  }

  /**
   * getAdditiveDetails: the curated record for the normalised code, or a
   * generic record built from the classifier. Either way the code is the
   * canonical key and the function and risk level agree with the classifier,
   * so the detail page never contradicts the product page.
   */
  function AdditiveDetails(code: string): (a: Additive)
    ensures a.code == LookupKey(code)
    ensures a.category == AdditiveInfo(code).category
    ensures a.riskLevel == AdditiveInfo(code).riskLevel
    ensures NormalizedCode(code) in CuratedDetails ==> a == CuratedDetails[NormalizedCode(code)]
    ensures NormalizedCode(code) !in CuratedDetails ==>
              && a.name == "E" + Upper(NormalizedCode(code))
              && a.purpose == None
              && a.description == Some(NotAvailable)
              && a.healthRisks == None
  {
    var n := NormalizedCode(code);
    if n in CuratedDetails then
      CuratedAgreesWithTable(n);
      CuratedDetails[n]
    else
      var info := AdditiveInfo("e" + n);
      LookupKeyIdempotent(code);
      Additive("e" + n, "E" + Upper(n), info.category, None, info.riskLevel, Some(NotAvailable), None)
  }
}
