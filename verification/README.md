# Food additives scanner — a Dafny model of its product pipeline and scan history

The scanner looks up a barcode in Open Food Facts and turns the product record it gets back into a
`Product`. It classifies each additive against a small reference table. It classifies each nutrient
value against per-kind thresholds. It grades the product from the risk levels of its additives. The
result goes into a scan history kept in browser storage. The history is capped at 100 entries, holds
one entry per product code, and is read back newest first.

This project models both pure parts in Dafny. Each module below follows one concern of
`lib/api.ts` or `lib/storage.ts`:

- `Wrappers`: the `Option` type. An `Option` field stands for a JavaScript field that may be `undefined`.
- `Text`: ASCII `toLowerCase`/`toUpperCase`, `split(":").pop()` and `includes`.
- `Types`: the `Product`, `Additive` and nutrient-reading shapes of `lib/types.ts`.
- `Additives`: `getAdditiveInfo` (the reference table and its fallback) and `getAdditiveDetails`.
- `Nutrients`: `getNutrimentLevel`.
- `Scoring`: `calculateRating`.
- `Api`: `extractAdditives`, `extractNutriments` and the payload-to-product step of
  `fetchProductData`. This step is `Normalize(payload, now)`, with the clock as a parameter.
- `Storage`: `getHistory`, `saveToHistory`, `removeFromHistory` and `clearHistory`. They work over
  the durable slot `Slot = Missing | Malformed | Arr(items)`, with the clock as `now`.

The source stores the grade and the nutrient level as strings. The model uses the enumerations
`Rating` and `Level`, whose `Label()` gives the source's string. The additive risk level stays a
string, because `calculateRating` compares strings and gives no weight to any other value.

Some behaviours of the code are easy to misread, and the model follows the code as written:

- A re-saved product is overwritten in place, not moved (`lib/storage.ts:15-20`). Only the re-sort
  on the next load can bring it to the front. It comes first when its new timestamp is later than
  every other entry (`Storage.SavedFirstOnNextLoad`). On a timestamp tie the stable sort keeps the
  stored order, as the two-entry cases show: in the history [b, a] with a older, re-saving a at b's
  timestamp loads b and then the re-stamped a (`Storage.ReSaveOnTieStaysBehind`); in the history
  [a, b] with a no older, it loads the re-stamped a and then b (`Storage.ReSaveOnTieKeepsLead`).
- The display name of an extracted additive is not looked up in a name table. It is the last
  segment of the first `additives_original_tags` entry that contains the code, compared
  case-insensitively. When there is no such entry, the name is the code in upper case
  (`lib/api.ts:65-73`).
- The namespace prefix ("en:") is stripped by the extractor (`lib/api.ts:60`). The classifier only
  lower-cases the code and drops one leading `e` (`lib/api.ts:129`).
- Energy is read only when its value is truthy (`lib/api.ts:188`). So an energy value of 0 gives no
  reading, while a fat, sugars or salt value of 0 does.
- Removal deletes every entry with that code, not only the first. It writes back the list in loaded
  (sorted) order (`lib/storage.ts:76-78`).

## Model

| member | source | states |
|---|---|---|
| `Text.Lower` | lib/api.ts:129 | ASCII lower-casing maps every character on its own, keeps the length and leaves no upper-case letter |
| `Text.Upper` | lib/api.ts:65 | ASCII upper-casing maps every character on its own and keeps the length |
| `Text.LastSegmentSpec` | lib/api.ts:60 | the last `:` segment is the longest colon-free suffix: it has no colon, it is a suffix, and it is either the whole tag or preceded by a colon |
| `Text.LastSegmentAfterColon` | lib/api.ts:59-60 | the code of `prefix + ":" + seg` is `seg` whenever `seg` has no colon ("en:e330" gives "e330") |
| `Text.Includes` | lib/api.ts:67-69 | `includes` is true exactly when some position of the text starts an occurrence of the needle |
| `Additives.NormalizedCode` | lib/api.ts:129 | the normalised code never has an upper-case letter |
| `Additives.AdditiveInfo` | lib/api.ts:90-142 | classification never fails, always carries "high", "medium" or "low", and returns ("Food additive", "medium") exactly when the `e`-prefixed key is not in the table |
| `Additives.LookupKeyIdempotent` | lib/api.ts:129-132 | normalising the looked-up key again gives the same key |
| `Additives.ClassifyDependsOnNormalizedCode` | lib/api.ts:129-135 | two codes with the same lower-cased, `e`-stripped form classify identically |
| `Additives.ClassifyCanonical` | lib/api.ts:129-135 | a code and its `e`-prefixed lookup key classify identically |
| `Additives.ClassifyIgnoresPrefix` | lib/api.ts:129-133 | a lower-case code without a leading `e` classifies the same as that code with `e` or `E` in front ("621", "e621", "E621") |
| `Additives.TableKeysAreCanonical` | lib/api.ts:95-126 | every table key is lower case, starts with `e` and has no second leading `e` |
| `Additives.ClassifyTableHit` | lib/api.ts:95-135 | for every table entry, the key, its bare number and its `E`-prefixed form all return that entry verbatim |
| `Additives.CuratedAgreesWithTable` | lib/api.ts:260-309 | every curated record has code `e` + its key and the function and risk level of the reference table |
| `Additives.AdditiveDetails` | lib/api.ts:252-326 | the detail record always has the canonical code and the classifier's function and risk level; a non-curated code gets name "E" + upper-cased code, the "not available" description and no purpose or health risks |
| `Nutrients.ThresholdsOrdered` | lib/api.ts:230-236 | every tracked kind's moderate threshold is below its high threshold |
| `Nutrients.NutrientLevel` | lib/api.ts:227-249 | high iff value >= high threshold, moderate iff moderate <= value < high, low iff value < moderate; an untracked kind is moderate |
| `Nutrients.LevelMonotone` | lib/api.ts:242-248 | for every kind, a larger value never gets a lower level |
| `Nutrients.LevelBoundaries` | lib/api.ts:242-245 | each threshold value itself belongs to the higher tier |
| `Scoring.CountRisk` | lib/api.ts:151-153 | a risk count never exceeds the number of additives |
| `Scoring.Clamp` | lib/api.ts:162 | the clamped score lies in [0, 100], equals the input inside that range, is 0 below it and 100 above it |
| `Scoring.Tier` | lib/api.ts:164-174 | Excellent iff score >= 80, Good iff 60 <= score < 80, Poor iff 40 <= score < 60, Bad iff score < 40 |
| `Scoring.RawScore` | lib/api.ts:159 | the unclamped score is at most 100, and exactly 100 iff no additive has a known risk level |
| `Scoring.CalculateRating` | lib/api.ts:145-177 | an empty list gives (Excellent, 100); otherwise the score is the raw score when that is not negative and 0 when it is; the score always lies in [0, 100]; the grade is always the tier of the score; four or more high-risk additives give (Bad, 0) |
| `Scoring.TierMonotone` | lib/api.ts:164-174 | a higher score never gets a worse grade |
| `Scoring.CountIsMultiplicity` | lib/api.ts:151-153 | counting a risk level equals its multiplicity in the multiset of risk levels |
| `Scoring.RatingDependsOnRiskMultiset` | lib/api.ts:146-176 | two additive lists with the same multiset of risk levels get the same verdict |
| `Scoring.RatingPermutationInvariant` | lib/api.ts:146-176 | any reordering of the additives gets the same verdict |
| `Scoring.CountPermutation` | lib/api.ts:151-153 | equal multisets of additives have equal risk counts |
| `Scoring.UnknownRiskIgnored` | lib/api.ts:151-159 | appending an additive whose risk level is not high, medium or low leaves the verdict unchanged |
| `Scoring.ScoreNonIncreasing` | lib/api.ts:159-162 | appending any additive never raises the score |
| `Scoring.HighRiskExamples` | lib/api.ts:159-174 | one high-risk additive gives (Good, 70), three give (Bad, 10), four give (Bad, 0) |
| `Api.OrElse` | lib/api.ts:31-32 | a missing or empty name or brand is replaced by the placeholder; any other value is kept |
| `Api.FindOriginalTag` | lib/api.ts:67-69 | returns the first original tag whose lower-cased text contains the lower-cased code, and none exactly when no tag does |
| `Api.DisplayName` | lib/api.ts:65-73 | the name is the last segment of the first matching original tag, or the upper-cased code when there is no list, no match or an empty segment |
| `Api.MakeAdditive` | lib/api.ts:76-83 | an extracted additive keeps its code and has no purpose, description or health risks |
| `Api.ExtractedAdditiveClassified` | lib/api.ts:63-83 | an extracted additive carries the classifier's function and risk level, which is "high", "medium" or "low", and the display name |
| `Api.TagCodes` | lib/api.ts:58-62 | at most one code per tag, and no code is empty or contains a colon |
| `Api.TagCodesAppend` | lib/api.ts:58-62 | taking codes distributes over concatenation of tag lists |
| `Api.AdditivesOfTags` | lib/api.ts:58-84 | at most one additive per tag, and every additive's code is non-empty and colon-free |
| `Api.AdditivesOfTagsAppend` | lib/api.ts:58-84 | extraction distributes over concatenation, so it keeps tag order and duplicates |
| `Api.AdditivesOfOneTag` | lib/api.ts:60-62 | a tag whose last segment is empty contributes nothing; any other tag contributes exactly one additive |
| `Api.ExtractAdditives` | lib/api.ts:49-87 | a missing or non-array tag field yields no additives |
| `Api.Round` | lib/api.ts:190 | `Math.round` returns the integer r with r - 0.5 <= x < r + 0.5 |
| `Api.GramReading` | lib/api.ts:197-221 | a gram reading exists iff the raw value is defined, and then carries that value unrounded with its level |
| `Api.ExtractNutriments` | lib/api.ts:180-224 | no nutriments record gives no readings; energy appears iff its raw value is present and non-zero, rounded, in "kcal", with the level of the unrounded value; fat, sugars and salt appear iff their raw values are present, each with the raw value unrounded, unit "g" and the level from its own kind's thresholds |
| `Api.Normalize` | lib/api.ts:14-39 | no product iff status is not 1 or the product record is missing; otherwise a missing or empty name or brand becomes "Unknown Product" or "Unknown Brand", a non-empty one is kept, grade and score are always those of the product's own additives, and the code, image, additives, nutriments and timestamp `now` come from the payload |
| `Api.MonosodiumGlutamateExample` | lib/api.ts:14-39 | a payload with the single tag "en:e621" and no nutriments gives one high-risk additive "e621", no readings, "Unknown Product" and (Good, 70) |
| `Api.MonosodiumGlutamateTag` | lib/api.ts:58-84 | the tag "en:e621" gives exactly one additive, coded "e621" |
| `Api.MonosodiumGlutamateRisk` | lib/api.ts:76-83 | the additive "e621" is rated high-risk by the table |
| `Api.EnergyLevelBeforeRounding` | lib/api.ts:188-193 | 399.6 kcal shows as 400 but is classified moderate |
| `Api.ZeroEnergyDropped` | lib/api.ts:188-203 | an energy value of 0 gives no reading while a fat value of 0 gives a low reading |
| `Storage.InsertByTime` | lib/storage.ts:57 | inserting makes the list one entry longer |
| `Storage.InsertIsPermutation` | lib/storage.ts:57 | inserting adds exactly the new entry and keeps all the others |
| `Storage.ConsKeepsOrder` | lib/storage.ts:57 | an entry no older than any other, put in front of a newest-first list, keeps it newest first |
| `Storage.InsertBounded` | lib/storage.ts:57 | inserting never introduces a timestamp above a bound that the entry and the list respect |
| `Storage.InsertKeepsOrder` | lib/storage.ts:57 | inserting into a newest-first list keeps it newest first |
| `Storage.SortNewestFirst` | lib/storage.ts:57 | sorting keeps the length |
| `Storage.SortIsPermutation` | lib/storage.ts:57 | the sorted list is a permutation of the input |
| `Storage.SortIsOrdered` | lib/storage.ts:57 | the sorted list has non-increasing timestamps |
| `Storage.InsertIsStable` | lib/storage.ts:57 | inserting keeps the order of the entries of each timestamp, with the new entry ahead of those equal to it |
| `Storage.SortIsStable` | lib/storage.ts:57 | for every timestamp, the entries carrying it keep their input order |
| `Storage.SortOfSorted` | lib/storage.ts:57 | sorting a newest-first list returns it unchanged |
| `Storage.SortPair` | lib/storage.ts:57 | two entries sort newer first, and stay in place on a tie |
| `Storage.InsertKeepsUnique` | lib/storage.ts:57 | inserting an entry with a code not yet present keeps codes unique |
| `Storage.SortKeepsUnique` | lib/storage.ts:57 | sorting keeps codes unique |
| `Storage.GetHistory` | lib/storage.ts:42-62 | loading never fails: a missing slot or a non-array gives []; an array loads with the same number of entries |
| `Storage.LoadIsPermutation` | lib/storage.ts:51-57 | a stored array loads as a permutation of itself |
| `Storage.LoadIsNewestFirst` | lib/storage.ts:42-62 | every load is newest first |
| `Storage.LoadIsStable` | lib/storage.ts:57 | entries with equal timestamps load in stored order |
| `Storage.LoadIdempotent` | lib/storage.ts:57 | writing back a loaded list and loading again gives the same list |
| `Storage.LoadKeepsInvariant` | lib/storage.ts:42-57 | a stored array with unique codes and at most 100 entries loads as such a list |
| `Storage.FindCode` | lib/storage.ts:13 | `findIndex` returns the first index holding the code, or -1 exactly when no entry holds it |
| `Storage.Upsert` | lib/storage.ts:13-31 | an existing code is replaced at its own index stamped `now` and nothing else changes; a new code goes first stamped `now`, the old entries follow in order, and the length grows by one unless it was already at the cap of 100 |
| `Storage.SaveToHistory` | lib/storage.ts:7-39 | a save always writes an array containing the product stamped `now` |
| `Storage.SaveKeepsInvariant` | lib/storage.ts:7-39 | a save keeps "unique codes and at most 100 entries" |
| `Storage.UpsertKeepsUnique` | lib/storage.ts:13-31 | the upsert keeps codes unique |
| `Storage.SaveExisting` | lib/storage.ts:13-20 | re-saving a present code keeps the loaded length and changes only that code's index, to the product stamped `now` |
| `Storage.UpsertNew` | lib/storage.ts:21-31 | a new code goes first; from at most 100 entries the length becomes min(old + 1, 100); at the cap the dropped entry is the last one, whose timestamp is the oldest |
| `Storage.SaveNew` | lib/storage.ts:21-31 | a new code goes first; from at most 100 entries the length becomes min(old + 1, 100); at the cap the dropped entry is the last loaded one, whose timestamp is the oldest |
| `Storage.LastIsOldest` | lib/storage.ts:30 | the last entry of a newest-first list has the smallest timestamp |
| `Storage.SavedFirstOnNextLoad` | lib/storage.ts:13-35 | when `now` is later than every loaded timestamp, the saved product is first on the next load |
| `Storage.SavedNewFirstOnTie` | lib/storage.ts:21-35 | a new code saved with `now` no earlier than any loaded timestamp is first on the next load, even on a tie |
| `Storage.ReSaveOnTieStaysBehind` | lib/storage.ts:13-20 | in the two-entry history [b, a] with a older than b, re-saving a at b's timestamp loads [b, a stamped with that time] |
| `Storage.ReSaveOnTieKeepsLead` | lib/storage.ts:13-20 | in the two-entry history [a, b] with a no older than b, re-saving a at b's timestamp loads [a stamped with that time, b] |
| `Storage.SaveABA` | lib/storage.ts:7-57 | saving A, B and then A again at increasing times into an empty history loads as [A, B] |
| `Storage.InterleavedSavesLoseUpdate` | lib/storage.ts:7-39 | two saves of different codes that both load an empty history before either writes end with only the second product stored, while the same saves run one after the other keep both |
| `Storage.WithoutCode` | lib/storage.ts:77 | the filter never lengthens the list and leaves no entry with that code |
| `Storage.WithoutCodeMembers` | lib/storage.ts:77 | the filter keeps exactly the entries with another code |
| `Storage.WithoutCodeAbsent` | lib/storage.ts:77 | filtering out a code no entry has changes nothing |
| `Storage.WithoutCodeAppend` | lib/storage.ts:77 | filtering distributes over concatenation, so kept entries stay in order |
| `Storage.WithoutCodeBounded` | lib/storage.ts:77 | filtering keeps every entry within a timestamp bound that the input respects |
| `Storage.WithoutCodeKeepsOrder` | lib/storage.ts:77 | filtering a newest-first list keeps it newest first |
| `Storage.WithoutCodeKeepsUnique` | lib/storage.ts:77 | filtering keeps codes unique |
| `Storage.RemoveFromHistory` | lib/storage.ts:74-82 | removal writes an array of exactly the loaded entries with another code |
| `Storage.RemoveKeepsInvariant` | lib/storage.ts:74-82 | removal writes a newest-first array and keeps the invariant |
| `Storage.RemoveThenLoad` | lib/storage.ts:74-78 | the next load after a removal is the previous load with that code filtered out |
| `Storage.RemoveAbsentIsNoOp` | lib/storage.ts:74-78 | removing an absent code leaves the loaded history unchanged |
| `Storage.ClearHistory` | lib/storage.ts:65-71 | after clearing, the next load is empty |

## Left out

- The HTTP request and the response status check in `fetchProductData` (`lib/api.ts:6-12`) are network I/O. Only the payload-to-product step is modelled, and `now` replaces `Date.now()`.
- JSON parsing and serialisation and the `localStorage` API are left out. The slot datatype stands in for the stored blob. A missing or empty blob is `Missing`. A parse error or a non-array value is `Malformed`. An array is `Arr` and is assumed to hold products. A write is assumed to store the products exactly.
- Swallowed exceptions and `console` logging are left out. So are the cases where a storage write throws and the slot keeps its old content.
- Numbers are mathematical `real`s, so IEEE rounding, NaN and infinities are not modelled. A `null` nutrient value is not modelled either; in the source it would pass the `!== undefined` test and be classified low.
- A non-numeric `status` field is modelled as absent. In the source it never equals 1 either.
- Payload fields are assumed to have their documented JSON types. Other types are not modelled. This covers four cases. A non-string entry in `additives_tags` makes `split` throw. A non-string entry in `additives_original_tags` makes `toLowerCase` throw inside `find` (`lib/api.ts:67-68`), and `fetchProductData` rethrows that error (`lib/api.ts:42-44`). A non-array truthy `additives_original_tags` makes `find` throw. A truthy non-string `product_name` or `brands` is kept as it is by `||`.
- Concurrency is not modelled. Each history operation (save, load, remove, clear) is one atomic load-modify-write step. In the source the operations are `async`: a save or remove awaits `getHistory()` before it calls `setItem` (`lib/storage.ts:10`, `lib/storage.ts:76-78`), so overlapping calls can interleave, and the later write can lose the earlier update. `Storage.InterleavedSavesLoseUpdate` exhibits one such lost update.
- Case mapping covers ASCII letters only. JavaScript's full Unicode `toLowerCase`/`toUpperCase` is not modelled.
- `Additives.AdditiveDetails`: it does not model the plain-object lookup of the curated table (`lib/api.ts:312`) on inherited keys. A normalised code such as "constructor" or "__proto__" (also reached from "Econstructor") finds a truthy inherited value in the source, which is returned as the details. The model returns the generic record for it. The classifier is not affected, because its keys all start with `e`.
- `Nutrients.NutrientLevel`: it does not model lookups of inherited object keys such as "constructor", which would be truthy in the source's threshold record. The normaliser only passes the four tracked kinds.
- The barcode scanner wrappers, the React components and pages, and the manual test script are not part of this model. They are camera, network and presentation code.
- A run of 105 saves at the cap is not proved as an iteration. `Storage.SaveNew` proves the single step it repeats: at the cap, one new code goes in and the oldest entry drops out.
