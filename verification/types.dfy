/**
 * The entities the scanner produces and stores, after lib/types.ts:
 * an additive, a nutrient reading, the four optional readings of a
 * product, and the product itself.
 */
module Types {
  import opened Wrappers

  /** One named health risk of a curated additive, with its display icon. */
  datatype HealthRisk = HealthRisk(name: string, icon: string)

  /**
   * A classified additive. `category` is the additive's technological
   * function ("Preservative", "Sweetener", ...); `riskLevel` is kept as the
   * string the source stores ("high", "medium" or "low"). The last three
   * fields are present only for curated additives.
   */
  datatype Additive = Additive(
    code: string,
    name: string,
    category: string,
    purpose: Option<string>,
    riskLevel: string,
    description: Option<string>,
    healthRisks: Option<seq<HealthRisk>>)

  /** The three nutrient tiers, lowest first. */
  datatype Level = Low | Moderate | High {
    function Rank(): nat {
      match this
      case Low => 0
      case Moderate => 1
      case High => 2
    }

    function Label(): string {
      match this
      case Low => "low"
      case Moderate => "moderate"
      case High => "high"
    }
  }

  /** A reading of one nutrient per 100 g of product. */
  datatype Reading = Reading(value: real, unit: string, level: Level)

  /** The sparse nutrient record: a reading is present only if the payload had a value for it. */
  datatype Nutriments = Nutriments(
    energy: Option<Reading>,
    fat: Option<Reading>,
    sugars: Option<Reading>,
    salt: Option<Reading>)

  const NoNutriments := Nutriments(None, None, None, None)

  /** The four product grades, best first. */
  datatype Rating = Excellent | Good | Poor | Bad {
    /** Position from best (0) to worst (3). */
    function Rank(): nat {
      match this
      case Excellent => 0
      case Good => 1
      case Poor => 2
      case Bad => 3
    }

    function Label(): string {
      match this
      case Excellent => "Excellent"
      case Good => "Good"
      case Poor => "Poor"
      case Bad => "Bad"
    }
  }

  /**
   * A normalised product. `code` may be absent when the payload's product
   * record had none; `timestamp` is in milliseconds since the epoch.
   */
  datatype Product = Product(
    code: Option<string>,
    productName: string,
    brands: string,
    imageUrl: Option<string>,
    additives: seq<Additive>,
    nutriments: Nutriments,
    rating: Rating,
    ratingScore: int,
    timestamp: int)
}
