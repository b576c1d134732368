# Affinity scoring engine, modelled in Dafny

This project models the recipe affinity scoring engine of `app/utils/scoring.py`.
It has two parts.

- **Label assigner** (`labelize_recipes`, module `Labeling`, file `Labeling.dfy`).
  - Every recipe is given as its ingredient string, for example `"potato, onion"`.
  - The string is normalised: every `", "` becomes `","`, the result is wrapped in commas, and it is lower-cased.
  - A liked term adds 1 when `"," + lower(term) + ","` is a substring of the normalised string. A disliked term subtracts 1 under the same test.
  - A term listed twice counts twice.
  - An optional flag collapses every score to its sign.
  - `LabelizeRecipes` is the imperative accumulator. It keeps an array of scores that starts at zero, runs one pass per liked term and one per disliked term, then applies the optional collapse. It is proved equal to the specification function `Labels`.
- **Neighbour affinity estimator** (`compute_recipe_affinity_score`, module `Affinity`, file `Affinity.dfy`).
  - The catalog rows (id, embedding, label) are split into labeled rows (label ≠ 0) and unlabeled rows (label = 0). Each part keeps catalog order.
  - For every unlabeled row, the exact inner-product index returns the positions, within the labeled part, of its 5 most similar labeled rows. A slot that cannot be filled holds -1.
  - Each slot is mapped to the label at that position. A -1 slot gives nothing.
  - The estimate is the mean of the labels present. When none is present there is no estimate.
  - The estimates are looked up again by recipe id. With unique ids a labeled row gets no estimate. A labeled row that shares its id with an unlabeled row gets that row's estimate (`LabeledTwinTakesEstimate`).
  - pandas' NaN is modelled as `Option.None` (module `Wrappers`).
  - `ComputeRecipeAffinityScore` follows the source's steps: search, one label column per neighbour slot, row-wise mean, and the lookup by id. It is proved equal to the specification function `AffinityEstimates`.
  - Lemmas state what the estimates mean: the mean of the labels of the `min(5, #labeled)` nearest labeled recipes, which lies within the label range, and is absent exactly for labeled rows or an empty labeled pool.

Modelling assumptions:
- **Similarity is a parameter.** `Similarity` is an arbitrary function from two embeddings to a real. It stands for the inner product of the L2-normalised float32 vectors.
- **Tie-break.** Among equally similar labeled recipes, the one earlier in the labeled part (earlier in the catalog) is taken first. The source leaves this to the index library.
- **ASCII lower-casing.** Lower-casing maps ASCII `A`–`Z` only.
- **Empty terms.** An empty preference term is not ignored. Its delimited form is `",,"`, so it matches every recipe whose normalised string holds `",,"`, such as the empty recipe or `"a, "` (`EmptyTermMatches`). The model keeps this behaviour of the source.
- **Number of neighbours.** The source fixes `NB_NEIGHBORS = 5`. The specification functions take the count `k` as a parameter, and the lemmas that need at least one neighbour say `k > 0`. `ComputeRecipeAffinityScore` uses `NbNeighbors = 5`.
- **Unique unlabeled ids.** The final lookup by id reads a table of estimates indexed by the ids of the unlabeled rows. pandas refuses to look values up in a table whose index repeats, so the source fails when two unlabeled rows share an id. `AffinityEstimates` and `ComputeRecipeAffinityScore` require `UnlabeledIdsUnique`, and nothing else about ids.
  - Labeled rows may share ids with each other or with unlabeled rows, as in the source.
  - A labeled row whose id no unlabeled row shares gets no estimate (`LabeledWithoutTwinGetsNone`), so `UnlabeledRowLookup`, `LabeledTwinTakesEstimate` and `LabeledWithoutTwinGetsNone` together cover every row.
  - The catalog-wide lemmas (a labeled row gets nothing, estimates lie within the label range, one labeled recipe spreads its label) assume that all ids are unique (`UniqueIds`), so that each id names one recipe.
- **Embedding width.** Embeddings come from the columns of one table (app/utils/scoring.py:35-36), so every row has the same width. The similarity is abstract, so the model needs no width condition.
- **Integer scores.** Scores are integers. The source holds them as floats with integer values.
- **Replacement order.** `str.replace(", ", ",")` is modelled as the left-to-right, non-overlapping replacement Python performs (`CollapseSeparators`).

## Model

| member | source | states |
|---|---|---|
| Labeling.LowerChar | app/utils/scoring.py:18 | a capital `A`–`Z` becomes its own lower-case letter (code point + 32), every other character is left unchanged, and the result is never a capital |
| Labeling.Lower | app/utils/scoring.py:18-21 | `str.lower` keeps the length and lower-cases every character in place |
| Labeling.LowerIdempotent | app/utils/scoring.py:18 | lower-casing an already lower-cased string changes nothing |
| Labeling.CollapseSeparators | app/utils/scoring.py:17 | `str.replace(", ", ",")` never lengthens the string |
| Labeling.CollapseWithoutSeparator | app/utils/scoring.py:17 | a string that holds no `", "` passes through the replacement unchanged |
| Labeling.Normalize | app/utils/scoring.py:17-18 | the normalised recipe string starts and ends with a comma |
| Labeling.NormalizeIsLower | app/utils/scoring.py:18 | the normalised recipe string holds no upper-case letter |
| Labeling.Contains | app/utils/scoring.py:21 | `str.contains(..., regex=False)`: a substring is never longer than the string holding it |
| Labeling.Delimit | app/utils/scoring.py:21 | the searched form `"," + term.lower() + ","` is the term plus two characters |
| Labeling.Matches | app/utils/scoring.py:21 | a term can match only a normalised string at least two characters longer than the term |
| Labeling.MatchIgnoresTermCase | app/utils/scoring.py:21 | a term and its lower-cased form match the same recipes |
| Labeling.EmptyTermMatches | app/utils/scoring.py:17-21 | an empty term matches exactly the recipes whose normalised string holds `",,"`, for example `""` and `"a, "` |
| Labeling.CountMatchesRemove | app/utils/scoring.py:20-24 | taking one entry out of a term list removes exactly that entry's contribution |
| Labeling.LabelizeRecipes | app/utils/scoring.py:8-29 | the accumulator loops (start at 0, +1 per matching liked term, -1 per matching disliked term, optional sign collapse) return exactly `Labels`: one score per recipe, in input order |
| Labeling.AddMatches | app/utils/scoring.py:20-24 | one vectorised `+=`/`-=` step: every recipe the term matches changes by `delta`, every other recipe keeps its score |
| Labeling.Labels | app/utils/scoring.py:14 | the result has exactly one score per input recipe |
| Labeling.RecipeScore | app/utils/scoring.py:20-24 | a score lies between `-|disliked|` and `|liked|` |
| Labeling.CountMatches | app/utils/scoring.py:20-24 | a term list contributes at most one unit per entry |
| Labeling.CountMatchesCountsOccurrences | app/utils/scoring.py:20-24 | a list's contribution is the number of its positions holding a matching term, duplicates included |
| Labeling.CountMatchesAppend | app/utils/scoring.py:20-24 | the contribution of a concatenation of term lists is the sum of the contributions |
| Labeling.CountMatchesOrderFree | app/utils/scoring.py:20-24 | reordering a term list (same multiset) leaves its contribution unchanged |
| Labeling.RepeatedTermCountsTwice | app/utils/scoring.py:20-21 | a liked term listed twice adds twice what it adds once |
| Labeling.NoPreferencesScoreZero | app/utils/scoring.py:14-24 | with no liked and no disliked term every score is 0, with or without the flag |
| Labeling.ThresholdScore | app/utils/scoring.py:26-27 | `score / abs(score).replace(0, 1)` lies in [-1, 1], is 0 exactly when the score is 0 and positive exactly when the score is positive |
| Labeling.ThresholdScoreOdd | app/utils/scoring.py:26-27 | the sign collapse commutes with negation |
| Labeling.ThresholdCollapsesToSign | app/utils/scoring.py:26-27 | with the flag, each score is the sign (-1, 0 or 1) of the unflagged score |
| Labeling.SwapNegatesScores | app/utils/scoring.py:20-27 | swapping the liked and disliked lists negates every score, with or without the flag |
| Labeling.ScoreBounds | app/utils/scoring.py:20-27 | every returned score lies between `-|disliked|` and `|liked|` |
| Labeling.CollapseJoin | app/utils/scoring.py:17 | replacing `", "` by `","` in comma-free ingredients joined by `", "` gives them joined by `","` |
| Labeling.CollapseCommaFreePrefix | app/utils/scoring.py:17 | a comma-free prefix passes through the replacement unchanged |
| Labeling.WrappedJoinIsDelimited | app/utils/scoring.py:17 | wrapping the `","`-joined ingredients in commas puts a comma before and after every ingredient |
| Labeling.LowerConcat | app/utils/scoring.py:18 | lower-casing distributes over concatenation |
| Labeling.LowerDelimited | app/utils/scoring.py:18 | lower-casing the delimited list lower-cases each ingredient |
| Labeling.DelimitedOccurrenceIsMember | app/utils/scoring.py:16-21 | a comma-free term found between commas in the delimited list is one of the ingredients |
| Labeling.MemberOccursDelimited | app/utils/scoring.py:16-21 | every ingredient occurs between commas in the delimited list |
| Labeling.OccurrenceAtStart | app/utils/scoring.py:16-21 | a delimited occurrence at the start of `",x" + rest` is exactly `x` |
| Labeling.OccurrenceAfterStart | app/utils/scoring.py:16-21 | a later delimited occurrence lies wholly in the rest of the list |
| Labeling.OccurrenceShift | app/utils/scoring.py:16-21 | an occurrence in the rest of the list is an occurrence in the whole list |
| Labeling.WholeIngredientMatch | app/utils/scoring.py:16-21 | for comma-free ingredients and term, the term matches exactly when it equals some ingredient ignoring case (both directions) |
| Labeling.MilkIsNotCoconutMilk | app/utils/scoring.py:16-21 | "milk" does not match "Coconut milk, sugar", while "COCONUT MILK" does |
| Labeling.PairScore | app/utils/scoring.py:16-24 | a two-ingredient recipe scores 1 per liked and -1 per disliked term equal to one of its ingredients |
| Labeling.PotatoOnionScenario | app/utils/scoring.py:8-29 | recipes "potato, onion", "potato, carrot", "carrot, pea" with "potato" liked and "onion" disliked score 0, 1, 0 |
| Labeling.LabelsOfThree | app/utils/scoring.py:14 | three recipes get their three scores in input order |
| Affinity.Labeled | app/utils/scoring.py:39 | the labeled part holds exactly the rows with a nonzero label |
| Affinity.Unlabeled | app/utils/scoring.py:40 | the unlabeled part holds exactly the rows with label 0 |
| Affinity.PartitionIsExact | app/utils/scoring.py:55-56 | the two parts together hold every row once (lengths add up, multisets add up) |
| Affinity.UnlabeledKeepsUniqueIds | app/utils/scoring.py:56-61 | when no two unlabeled rows share an id, the unlabeled part has unique ids, so the id-keyed neighbour table is well defined |
| Affinity.Similarities | app/utils/scoring.py:47-53 | the query gets one similarity score per labeled recipe, by labeled position |
| Affinity.Better | app/utils/scoring.py:53 | a strictly more similar position always ranks first, and a position never ranks before a strictly more similar one (ties go to the earlier labeled position) |
| Affinity.BetterIsStrictTotalOrder | app/utils/scoring.py:53 | the ranking is irreflexive, transitive and total on distinct positions, so the search has exactly one answer |
| Affinity.BestAtRanksFirst | app/utils/scoring.py:53 | the candidate chosen first ranks before every other candidate |
| Affinity.TopK | app/utils/scoring.py:53 | the search picks `min(k, #candidates)` positions, all valid labeled positions |
| Affinity.TopKPicksCandidates | app/utils/scoring.py:53 | every pick is one of the candidates |
| Affinity.TopKOrdered | app/utils/scoring.py:53 | the picks come in strict ranking order (more similar first, ties by labeled position) |
| Affinity.TopKBeatsLeftOut | app/utils/scoring.py:53 | every candidate left out ranks after every pick |
| Affinity.SearchReturnsNearest | app/utils/scoring.py:43-53 | `index.search` fills `min(k, #labeled)` slots with the nearest labeled positions in ranking order, no left-out position ranks before a chosen one, and the other slots hold -1 |
| Affinity.Pad | app/utils/scoring.py:53 | the padded slots hold the picks in order, then -1 in every remaining slot |
| Affinity.Search | app/utils/scoring.py:53 | the search returns exactly k slots per query |
| Affinity.LabelAt | app/utils/scoring.py:63-66 | a slot finds a label exactly when it is a valid labeled position, and then it finds that recipe's label; -1 finds nothing |
| Affinity.NeighborLabels | app/utils/scoring.py:63-66 | one entry per slot |
| Affinity.NeighborLabelsFindValidSlots | app/utils/scoring.py:63-66 | a slot's entry is present exactly when the slot holds a valid labeled position |
| Affinity.MeanPresent | app/utils/scoring.py:68 | the mean is absent exactly when no value is present; otherwise the mean times the number of values present is their sum |
| Affinity.CountPresentZeroIff | app/utils/scoring.py:68 | no label is counted exactly when every slot is missing |
| Affinity.MeanSkipMissing | app/utils/scoring.py:68 | the row-wise mean accumulates the sum and count of the present labels; it is absent exactly when every value is missing |
| Affinity.MeanPresentBounds | app/utils/scoring.py:68 | a mean of labels within [lo, hi] lies within [lo, hi] |
| Affinity.SumPresentBounds | app/utils/scoring.py:68 | the sum of present labels within [lo, hi] lies between lo and hi times their count |
| Affinity.PresentOfPadded | app/utils/scoring.py:63-68 | mapping the picks followed by -1 slots counts exactly the picks and sums exactly their labels |
| Affinity.EstimateOf | app/utils/scoring.py:53-68 | one unlabeled recipe's `liked_estimated_score` exists exactly when at least one neighbour is asked for and some recipe is labeled |
| Affinity.EstimateIsMeanOfNearest | app/utils/scoring.py:53-68 | an unlabeled recipe's estimate is the plain average of the labels of its `min(k, #labeled)` nearest labeled recipes, and absent when the pool is empty |
| Affinity.SearchMean | app/utils/scoring.py:53-68 | the same, for any similarity scores of the pool |
| Affinity.EstimateExistsIffPool | app/utils/scoring.py:53-68 | an estimate exists exactly when the labeled pool is nonempty |
| Affinity.EstimateWithinPoolRange | app/utils/scoring.py:61-68 | an estimate lies between the smallest and largest label of the pool |
| Affinity.ById | app/utils/scoring.py:61 | the id-keyed table has exactly the given ids as keys |
| Affinity.ByIdLookup | app/utils/scoring.py:70 | with unique ids, looking up an id gives the value at its position |
| Affinity.IndexById | app/utils/scoring.py:61 | building the id-keyed table one row at a time gives `ById` |
| Affinity.EstimatesById | app/utils/scoring.py:61-68 | the keys of the id-keyed estimate table are exactly the ids of the unlabeled rows |
| Affinity.UnlabeledIdsAre | app/utils/scoring.py:56-61 | the ids of the unlabeled part are exactly the ids of the unlabeled rows |
| Affinity.AffinityEstimates | app/utils/scoring.py:32-70 | the result has one entry per catalog row; it is defined whenever no two unlabeled rows share an id |
| Affinity.UnlabeledIndex | app/utils/scoring.py:56 | every unlabeled row appears in the unlabeled part |
| Affinity.UnlabeledRowLookup | app/utils/scoring.py:61-70 | an unlabeled row's id finds the estimate computed from its own embedding |
| Affinity.LabeledIdNotUnlabeled | app/utils/scoring.py:70 | a labeled row's id is not a key of the neighbour table |
| Affinity.LabeledNonEmptyIff | app/utils/scoring.py:39 | the labeled part is nonempty exactly when some row has a nonzero label |
| Affinity.EstimateOfRow | app/utils/scoring.py:55-70 | with unique ids, a labeled row gets no estimate, and an unlabeled row gets the estimate from its own embedding against the labeled pool |
| Affinity.LabeledWithoutTwinGetsNone | app/utils/scoring.py:61-70 | a labeled row whose id no unlabeled row shares gets no estimate, even when other labeled rows share its id |
| Affinity.LabeledTwinTakesEstimate | app/utils/scoring.py:61-70 | a labeled row that shares its id with an unlabeled row gets that row's estimate, because the lookup goes by id alone |
| Affinity.EstimateExistsIff | app/utils/scoring.py:39-70 | a row gets an estimate exactly when it is unlabeled and some row is labeled |
| Affinity.NoLabeledNoEstimates | app/utils/scoring.py:39-70 | with no labeled row, no row gets an estimate (and the computation is defined) |
| Affinity.EstimateWithinLabelRange | app/utils/scoring.py:61-70 | every estimate lies between the smallest and largest nonzero label |
| Affinity.SingleLabeledRecipeSpreads | app/utils/scoring.py:33-70 | with exactly one labeled row, label L, every unlabeled row is estimated at exactly L |
| Affinity.SingleLabeledRow | app/utils/scoring.py:33-70 | the same, for one unlabeled row |
| Affinity.PotatoOnionScenario | app/utils/scoring.py:32-70 | three rows of which only the second is labeled (1), one neighbour: the estimates are 1, none, 1, for any similarity |
| Affinity.NeighborColumns | app/utils/scoring.py:63-66 | the column loop builds column c holding the label of slot c of every query |
| Affinity.RowMeans | app/utils/scoring.py:68 | the row-wise mean over the columns gives, per query, the mean of the labels its slots find |
| Affinity.ComputeRecipeAffinityScore | app/utils/scoring.py:32-70 | the search, column, mean and lookup steps return exactly `AffinityEstimates` with 5 neighbours |

## Left out

- Float32 conversion, `faiss.normalize_L2`, inner products and the index internals (app/utils/scoring.py:36, 43-53) are floating point and a foreign library. They are replaced by the `Similarity` parameter. The properties of cosine similarity (self-similarity, symmetry) are not modelled.
- Tie-breaking between equally similar labeled recipes happens inside the index library. The model fixes "earlier labeled position first" as an assumption.
- Selecting embedding columns by name (app/utils/scoring.py:35) is left out. A row carries its embedding directly.
- `str.lower` is Unicode-aware. The model lower-cases ASCII letters only.
- pandas mechanics are not modelled: the float dtype of the score series, `reset_index` (the model's sequences are renumbered from 0 already), and NaN. NaN is `Option.None`.
- The failure the source raises when two unlabeled rows share an id (the final `map` at app/utils/scoring.py:70 needs a uniquely indexed table) is excluded by the precondition `UnlabeledIdsUnique`, not modelled as an error.
- `affinity_score += …` and `-= …` (app/utils/scoring.py:21, 24) align rows by the index labels of `recipes` against the fresh 0..n-1 index of `affinity_score` (app/utils/scoring.py:14). The model works by position, so it assumes that `recipes` carries the default 0..n-1 index. With any other index the source would misalign or produce NaN.
- Determinism (same inputs, same outputs) holds for every Dafny function and is not stated separately.
- Affinity.Labeled: the contract states which rows are in the part, not that catalog order is kept (the body keeps it, and the tie-break relies on it).
- Affinity.Unlabeled: the contract states which rows are in the part, not that catalog order is kept.
- The Streamlit UI, the LLM client, configuration loading, the ingredient vocabulary and the scraper are outside the scoring engine.
