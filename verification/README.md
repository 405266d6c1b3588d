# Term allocation and specificity engine of the 7-phase business-process table generator

The generator builds a seven-phase business-process table (`phase_1` to
`phase_7`) for an industry and job title. Every phase record holds
activities, inputs, outputs, tools, stakeholders, KPIs, risks and
countermeasures. A table should read as specific to that job. The
generator extracts a vocabulary of domain terms in eight categories:
materials or products, tools and equipment, processes, industry KPIs,
constraints or regulations, common failures, stakeholders, and
deliverables.

This project models the deterministic engine around that vocabulary and
proves properties of it. The engine has these parts:

- **Filters.** `filter_category_items` drops organisation names. Among
  the stakeholders it replaces them by a role word. It also applies a
  per-category allow-list and a two-character minimum.
  `_filter_abstract_items` drops items whose word tokens are all
  abstract words, unless they look specific: two capitals in a row, or
  digits next to Latin letters.
- **Profile dispatch.** `get_domain_profile` is an ordered keyword
  classifier over the lower-cased `"industry job_title"`. It attaches the
  shared affinity table. It attaches search hints under a key, which the
  production-engineering profile does not pass.
- **Allocator.** The representative prefixes of each category are
  placed phase by phase by affinity. A per-call usage counter caps reuse:
  5 for core terms, 3 otherwise. The result is rendered as an injection
  plan.
- **Enforcer.** `_enforce_specificity` checks six fields of every phase
  record for a case-insensitive term hit. It repairs failing fields with
  terms picked by `select_best_terms`.
- **Validator.** `validate_job_specificity` computes several metrics:
  - specific and generic ratios;
  - weighted category coverage;
  - scale-stage order;
  - RACI letters;
  - phases without terms;
  - unreflected categories.

  It returns the ordered list of issues.
- **Extraction-quality check.** `_validate_extraction_quality` checks
  item counts, generic words, specific patterns and required terms.
- **TSV export.** `convert_to_tsv` writes a header row and eight field
  rows.

Modules, one file each:

| file | module | models |
|---|---|---|
| wrappers.dfy | Wrappers | `Option` |
| text.dfy | Text | `in`, `str.count`, `str.find`, `str.split()`, `str.join`, lower-casing of ASCII and full-width Latin capitals, maximal runs |
| seqs.dfy | Seqs | filtering, subsequences, `xs[:n]` |
| stable_sort.dfy | StableSort | Python's stable `sorted(..., reverse=True)` as insertion sort |
| domain.dfy | Domain | categories, phases, `PHASE_AFFINITY_MAP`, the affinity placement walk |
| patterns.dfy | Patterns | exclusion, role and allow patterns; `filter_category_items` |
| abstract_filter.dfy | AbstractFilter | `_filter_abstract_items` |
| profiles.dfy | Profiles | `get_domain_profile`, `_attach_common` |
| allocator.dfy | Allocator | the `rep` subsets, the allocation loop, the injection plan |
| phase_table.dfy | PhaseTable | the generated table as an insertion-ordered dictionary |
| enforcer.dfy | Enforcer | `_enforce_specificity`, `select_best_terms` |
| validator.dfy | Validator | `validate_job_specificity` |
| extraction_quality.dfy | ExtractionQuality | `_validate_extraction_quality` |
| tsv.dfy | Tsv | `convert_to_tsv` |

Modelling conventions:

- **Vocabulary.** The vocabulary (`job_info`, `rep`) is a
  `map<Category, seq<string>>`. A dictionary walk follows the canonical
  category order.
- **Generated table.** It is a sequence of key/entry items, keys
  distinct and in insertion order. An entry is a record (field name to
  text) or a scalar that is not a dictionary.
- **In-place mutation.** The enforcer mutates the table in place. The
  model returns a new table and threads the usage counter explicitly.
- **Scores.** Scores and ratios are exact reals. The 3 % and 20 %
  thresholds are also stated as integer cross products.
- **JSON.** The `json.dumps` texts of the table and of each record are
  inputs: a string, and a rendering function.
- **Code over design notes.** Where the repository's design notes and
  the code disagree, the model follows the code:
  - the allocator's usage counter is local to one call, although the
    design asks for it to persist across calls;
  - the filters are idempotent only outside the stakeholders category
    (`Patterns.StakeholdersNotIdempotent`);
  - the 0.6 affinity threshold never changes a placement
    (`Domain.ThresholdIrrelevant`).

## Model

| member | source | states |
|---|---|---|
| Domain.AffinityRow | domain_profiles.py:19-87 | every row has seven scores in [0,1]; the stakeholders row is 0.5 throughout |
| Domain.PhaseAffinityMapEntry | domain_profiles.py:19-87 | the shared table has an entry for all eight categories and all seven phases, and reads back the row values |
| Domain.PhaseAffinityMapBounds | domain_profiles.py:19-87 | every score of the shared table lies in [0,1]; every stakeholders score is 0.5 |
| Domain.RankedHeadIsFirstMax | streamlit_app_v5.py:603 | by stability of the descending sort, the top-ranked phase is the first phase, in phase order, of maximal affinity |
| Domain.WalkTakesTop | streamlit_app_v5.py:605-620 | the walk over the ranked phases always stops at the top-ranked phase, whether or not it clears the threshold |
| Domain.PlacementPhase | streamlit_app_v5.py:603-625 | the phase a term is placed in (walk plus fallback) is the first phase of maximal affinity for its category |
| Domain.ThresholdIrrelevant | streamlit_app_v5.py:587-625 | any two thresholds give the same placement |
| Domain.MissingCategoryGoesToPhase1 | streamlit_app_v5.py:603-625 | a category absent from the affinity map (all scores 0) is placed in phase_1 |
| Domain.StandardPlacement | domain_profiles.py:19-87 | under the shared table each category lands in its first peak phase (materials and processes phase_3, tools phase_4, KPIs and deliverables phase_5, regulations and stakeholders phase_1, failures phase_7) |
| StableSort.SortDesc | streamlit_app_v5.py:603 | the descending sort returns a permutation of its input, of the same length, with non-increasing keys |
| StableSort.SortHeadIsFirstMax | streamlit_app_v5.py:603 | the head of the stable descending sort is the first element of maximal key |
| StableSort.SortDescByLevels | streamlit_app_v5.py:841 | when keys take three strictly decreasing values, the stable sort lists the top group, then the middle one, then the bottom one, each in input order |
| Allocator.RepTerms | streamlit_app_v5.py:563-574 | the representative subset is a prefix of the extracted list, at most the category limit (10/8/10/8/8/8/10/8) long, and the whole list when shorter |
| Allocator.RepresentativeEntry | streamlit_app_v5.py:565-574 | the representative dictionary has all eight categories, each holding its representative subset |
| Allocator.PlaceAll | streamlit_app_v5.py:595-625 | the allocation loop makes no more placements than iterations, and each placement is one of the loop's terms, put where the placement rule says |
| Allocator.PlaceAllStep | streamlit_app_v5.py:596-625 | one more iteration either appends one placement and increments that term's counter by one, or, for a term at its cap, changes nothing |
| Allocator.PlaceAllCounts | streamlit_app_v5.py:594-625 | the counter equals the number of placements of each term, and a term is placed exactly min(cap, occurrences) times |
| Allocator.Allocate | streamlit_app_v5.py:584-625 | every placement is a representative term of its category, placed in the first phase of maximal affinity |
| Allocator.AllocateCounts | streamlit_app_v5.py:588-601 | a term is placed exactly min(cap, occurrences in the representative lists) times: at most 5 times when it is a core term, at most 3 otherwise |
| Allocator.AllocateCells | streamlit_app_v5.py:593-625 | a category's cell in its best phase is an order-preserving subsequence of its representative terms, capped ones left out; its cells in every other phase are empty |
| Allocator.AllocateCellCounts | streamlit_app_v5.py:593-625 | a term that the representative lists offer no more often than its reuse cap appears in a category's best cell exactly as often as that category's representative list holds it; so a category whose terms are all within the cap gets a non-empty cell |
| Allocator.PlaceAllCellCount | streamlit_app_v5.py:595-625 | for a term offered no more often than its cap, the loop puts into each category's cell exactly as many copies as that category's slots offer |
| Allocator.PlanMentionsPlacement | streamlit_app_v5.py:628-641 | every placed term is spelled out in the injection plan text |
| PhaseTable.Lookup | streamlit_app_v5.py:866-867 | a lookup finds an entry exactly when the key is present, and the entry found is stored under that key |
| PhaseTable.LookupUpdate | streamlit_app_v5.py:866-917 | after an in-place update of a present key, lookups see the new entry under that key and the old entries elsewhere |
| PhaseTable.Update | streamlit_app_v5.py:866-917 | an in-place update keeps the keys and their order |
| Enforcer.SelectIsFewestUsesFirst | streamlit_app_v5.py:811-850 | a selection is the first `count` terms of the list in fewest-prior-uses-first order, ties in list order, terms used three times excluded; so it never exceeds `count` and phase affinity never changes the choice |
| Enforcer.EligibleSorted | streamlit_app_v5.py:831-841 | sorting the eligible terms by affinity minus 0.3 per use lines them up as the unused, then the once-used, then the twice-used terms, each in list order |
| Enforcer.SelectCounts | streamlit_app_v5.py:824-850 | a selection takes a term at most as often as the list offers it and never a term used three times, and the counter grows by exactly the number of copies taken |
| Enforcer.SelectedFromList | streamlit_app_v5.py:831-844 | every selected term comes from the offered list |
| Enforcer.DuplicateTermPassesLimit | streamlit_app_v5.py:833-848 | the three-use cap is checked before selection, not per copy: a list offering a twice-used term twice hands out both copies and the counter reaches 4 |
| Enforcer.PickedMentions | streamlit_app_v5.py:807-809 | a taken term that the text mentions, case-insensitively, makes the text mention a term of one of the rule's groups |
| Enforcer.RepairFieldRepaired | streamlit_app_v5.py:871-915 | a field that passes its check is left as it was; a field that fails it and is left as it was has every category of every group of its rule used up (three uses per term) by the counter after the repair; a changed field is the separator-join of one share per group, each share at most `count` terms all from one category of that group, followed by the old text behind its separator when the rule keeps it; a field repaired while keeping its text ends with the old text; a changed field mentions a term of one of its groups |
| Enforcer.SelectGroupsEmptyIff | streamlit_app_v5.py:872-915 | asked for at least one term each, the groups' `a or b` selections take nothing exactly when every term of every category of every group has been used three times |
| Enforcer.RepairFieldFires | streamlit_app_v5.py:871-915 | a field that fails its check is rewritten exactly when some term of its rule's categories is used fewer than three times, for each of the rule shapes the enforcer uses |
| Enforcer.RepairFieldStalls | streamlit_app_v5.py:871-915 | a failing field the repair leaves as it was has its rule's categories used up by the counter after the repair |
| Enforcer.RulesRepairable | streamlit_app_v5.py:871-915 | each of the six field rules asks for at least one term and either keeps the old text or has a single group |
| Enforcer.FreshCounterRewrites | streamlit_app_v5.py:805-915 | with a fresh counter, a failing field whose rule offers any term is rewritten |
| Enforcer.UnchangedRecordNotRepaired | streamlit_app_v5.py:871-879 | an empty phase record left as it was does not meet the activities guarantee when one process term is on offer and the counter is fresh |
| Enforcer.ApplyRulesGrows | streamlit_app_v5.py:846-848 | the usage counter never goes down over a phase record's repairs |
| Enforcer.EnforceFromGrows | streamlit_app_v5.py:846-848 | the usage counter never goes down over the phase loop |
| Enforcer.SelectEmptyIff | streamlit_app_v5.py:833-850 | a selection of at least one term is empty exactly when every offered term has been used three times |
| Enforcer.PairRepairShape | streamlit_app_v5.py:872-879 | a failing two-group field with count 1 is rewritten unless its categories are used up; the new text is one term of the first category (none exactly when it is used up), then one term of the second category while it has one left, otherwise at most one of the third (exactly one while it has one left), joined, then the old text |
| Enforcer.ActivitiesRepairShape | streamlit_app_v5.py:872-879 | a failing activities field is rewritten unless processes, materials and tools are all used up; the new text is one process term (none exactly when processes are used up), then one material term while one is left, otherwise at most one tool term (exactly one while one is left), joined by " / ", then " : " and the old text |
| Enforcer.SingleGroupShape | streamlit_app_v5.py:881-886 | a changed field under a one-category rule that drops the old text is the separator-join of at most `count` terms of that category |
| Enforcer.ToolsRepairShape | streamlit_app_v5.py:881-886 | a failing tools field is rewritten unless the tools are used up; a changed tools field is the ", "-join of at most three tool terms, the old text dropped |
| Enforcer.RepairFieldOthers | streamlit_app_v5.py:871-915 | a field repair touches no other field |
| Enforcer.ApplyRulesRepaired | streamlit_app_v5.py:871-915 | after all six field repairs, every field's guarantee, the repair shape and the used-up condition for an unchanged failing field included, holds of the final record against the counter after the record |
| Enforcer.EnforcePhaseRepaired | streamlit_app_v5.py:866-915 | one phase record after enforcement: each of the six fields keeps its guarantee against the counter after the record, so a failing field is left as it was only when its categories are used up; every other field, including stakeholders, countermeasures and phase_name, is unchanged |
| Enforcer.Enforce | streamlit_app_v5.py:780-917 | enforcement keeps the table's keys and their order |
| Enforcer.EnforceFromOther | streamlit_app_v5.py:864-869 | an entry whose key the phase loop does not name is unchanged |
| Enforcer.EnforceEntries | streamlit_app_v5.py:790-917 | each phase_k record is repaired field by field: every guarantee holds against the counter at the end of the run, so a failing field left as it was has its rule's categories used up by then; an entry under phase_k that is not a record, and every entry under another key, is unchanged |
| Enforcer.EnforceKeepsLimit | streamlit_app_v5.py:805-848 | when no representative list repeats a term, no term is handed out more than three times in one run |
| Validator.SumCountsZero | streamlit_app_v5.py:969 | the summed occurrence count is zero exactly when no term occurs in the lowered text; the empty term always occurs |
| Validator.RatioCompare | streamlit_app_v5.py:978-979 | a percentage ratio against a bound is the integer comparison 100·count against bound·max(words, 1) |
| Validator.Weight | streamlit_app_v5.py:942-951 | every category weight is at least 1 |
| Validator.Coverage | streamlit_app_v5.py:1026-1029 | a category's coverage, the share of its reference prefix that occurs, lies in [0,1] |
| Validator.CoverageSums | streamlit_app_v5.py:1020-1033 | the weighted sum lies between 0 and the total weight, and the total weight is 0 exactly when no category has terms |
| Validator.WeightedCoverage | streamlit_app_v5.py:1034 | the weighted coverage lies in [0,1], and is 0 when no category has terms |
| Validator.CoverageMap | streamlit_app_v5.py:1023-1030 | the coverage dictionary has exactly the categories with terms |
| Validator.ScaleWalkAscending | streamlit_app_v5.py:1041-1048 | the stage walk passes exactly when the found first positions, after the starting mark, never go down |
| Validator.ScaleOrderIffAscending | streamlit_app_v5.py:1038-1049 | the scale order is intact exactly when the stages that occur do so at non-decreasing first positions; absent stages are ignored |
| Validator.StakeholderLetter | streamlit_app_v5.py:1052-1055 | a letter occurs in the joined stakeholder text exactly when some record's stakeholders field holds it |
| Validator.RaciMissingIff | streamlit_app_v5.py:1056-1061 | a RACI letter is reported missing exactly when no record's stakeholders field holds it, case-sensitively |
| Validator.TermlessPhasesSound | streamlit_app_v5.py:1084-1094 | every phase reported without terms names a record whose rendering holds none of the terms |
| Validator.TermlessPhasesComplete | streamlit_app_v5.py:1084-1094 | every record whose rendering holds none of the terms is reported, under its phase_name or its key |
| Validator.MissingCategoriesIff | streamlit_app_v5.py:1101-1107 | a category is unreflected exactly when it is an input key and no term of its reference prefix occurs |
| Validator.AssessNoGuard | streamlit_app_v5.py:1064-1114 | a check never raises the input-guard issue, and the issue list is empty exactly when all eight criteria hold |
| Validator.AssessInOrder | streamlit_app_v5.py:1065-1111 | the issues come in the fixed check order: specific ratio, generic ratio, specific count, coverage, stage order, missing RACI, termless phases, unreflected categories, each at most once |
| Validator.AssessThreshold | streamlit_app_v5.py:1065-1078 | each of the five payload-free issues is raised exactly when its metric crosses its bound |
| Validator.AssessIssues | streamlit_app_v5.py:1065-1078 | specific ratio below 3, generic ratio above 20, fewer than 10 specific terms, coverage below 0.5 and a broken stage order each raise their own issue, exactly then |
| Validator.ValidateGuard | streamlit_app_v5.py:933-934 | the guard fires, with no metrics, exactly when the vocabulary or the table is empty; the verdict passes exactly when no issue is raised |
| Validator.ValidateThresholds | streamlit_app_v5.py:969-979 | the ratio, count and coverage issues are raised exactly at the integer thresholds 100·specific < 3·words, 5·generic > words, specific < 10 and coverage < 0.5 |
| Validator.ValidateScale | streamlit_app_v5.py:1077-1078 | the stage-order issue is raised exactly when there are stages and the found positions go down |
| Validator.ValidateRaci | streamlit_app_v5.py:1051-1062 | a letter is listed as missing RACI exactly when no stakeholders field holds it |
| Validator.ValidateCategories | streamlit_app_v5.py:1100-1111 | a category is unreflected exactly when it is a key and no reference term occurs; a key with an empty list is always reported, although the coverage skips it |
| Patterns.CategoryNamed | domain_profiles.py:149 | a category found by dictionary key has that key |
| Patterns.FirstRole | domain_profiles.py:156 | the chosen role occurs in the item and no role word listed before it does; there is none exactly when no role word occurs |
| Patterns.AvoidsExclusions | domain_profiles.py:127-132 | a text holding no first character of an exclusion marker names no organisation |
| Patterns.RolesClean | domain_profiles.py:134 | every role word has at least two characters and names no organisation |
| Patterns.FilterItemFacts | domain_profiles.py:150-166 | an item's fate: a kept item is itself and passes the allow-list; a replacement is the first listed role word occurring in a stakeholder item that names an organisation; every result has two or more characters and names no organisation; an organisation outside the stakeholders is dropped |
| Patterns.FilterOutputFacts | domain_profiles.py:147-167 | every output item has two or more characters and names no organisation, and is an input item passing the allow-list or, among the stakeholders, a role word |
| Patterns.FilterIsKept | domain_profiles.py:147-167 | outside the stakeholders the filter keeps exactly the items passing a fixed per-item test |
| Patterns.FilterSubsequenceIdempotent | domain_profiles.py:147-167 | outside the stakeholders the output is an order-preserving subsequence of the input, and filtering again changes nothing |
| Patterns.SingleItem | domain_profiles.py:150-166 | the output for one item is that item's fate |
| Patterns.StakeholdersNotIdempotent | domain_profiles.py:143-158 | among the stakeholders "エンジニア株式会社" becomes "エンジニア", which a second pass drops |
| AbstractFilter.FilterAbstract | streamlit_app_v5.py:527-540 | every category is kept, and each list becomes an order-preserving subsequence of itself |
| AbstractFilter.FilterAbstractFacts | streamlit_app_v5.py:531-539 | an item survives exactly when its tokens are not all abstract words or it looks specific; filtering twice equals filtering once |
| AbstractFilter.ConcreteCharKept | streamlit_app_v5.py:534-537 | a word character that occurs in no abstract word makes the item survive |
| AbstractFilter.NoWordCharsDropped | streamlit_app_v5.py:534-537 | an item without word characters, the empty string included, is dropped |
| AbstractFilter.AbstractPairDropped | streamlit_app_v5.py:529-537 | "測定・評価", two abstract words around punctuation, is dropped |
| Profiles.GetDomainProfile | domain_profiles.py:295-751 | the profile echoes the industry and role, carries the shared affinity table, and is named after the kind that the classifier picks on the lowered "industry job_title" |
| Profiles.ClassifyPrecedence | domain_profiles.py:296-724 | each profile is picked exactly when its own test passes and every earlier test fails: battery materials, battery cell, motor, production engineering, generic |
| Profiles.HintsIff | domain_profiles.py:276-289 | search hints are attached exactly to the battery-material, battery-cell and motor profiles |
| Profiles.CaseInsensitive | domain_profiles.py:296 | lower-casing the inputs first picks the same profile |
| Profiles.EvMaterialsExample | domain_profiles.py:299-409 | "EV" with "材料開発" picks the battery-materials profile |
| Profiles.DeviceMaterialsIsEv | domain_profiles.py:299 | the test is a substring test: "ev" inside "device" makes "半導体"/"device material" pick the battery-materials profile |
| Profiles.BatteryCellExample | domain_profiles.py:412-514 | "自動車" with "セル開発" picks the battery-cell profile |
| Profiles.MotorDesignExample | domain_profiles.py:517-618 | "自動車" with "モーター設計" picks the motor profile |
| Profiles.ProductionExample | domain_profiles.py:621-721 | "製造業" with "生産技術" picks the production profile, which carries no hints |
| Profiles.GenericExample | domain_profiles.py:724-751 | "食品" with "品質管理" falls back to the generic profile, whose key has no hint entry |
| ExtractionQuality.ThinCategories | streamlit_app_v5.py:363-367 | a category is listed as thin exactly when it is present with fewer than ten items |
| ExtractionQuality.CheckErrors | streamlit_app_v5.py:369-394 | the generic-word, specific-pattern and required-term errors each appear exactly when their check fails, in that order (ranks strictly increase), as many as checks fail, and nothing else |
| ExtractionQuality.CheckErrorListUnique | streamlit_app_v5.py:369-394 | any error list with those properties (one error per failing check, nothing else, in check order) is exactly the list the checks build |
| ExtractionQuality.Judge | streamlit_app_v5.py:352-397 | the per-category errors come first, in category order; after them come exactly the failing generic, specific and required errors in that order, and nothing else; the result is valid exactly when no category is thin, at most five generic words occur, at least ten specific patterns occur and no required term is missing |
| ExtractionQuality.ValidateExtractionQuality | streamlit_app_v5.py:343-397 | the result is valid exactly when the error list is empty |
| ExtractionQuality.MissingRequiredIff | streamlit_app_v5.py:389-392 | a required term is missing exactly when its lowered form does not occur in the lowered vocabulary |
| ExtractionQuality.QualityThin | streamlit_app_v5.py:362-367 | a category is reported thin exactly when it is present with fewer than ten items |
| ExtractionQuality.QualityMissing | streamlit_app_v5.py:389-394 | a required term is reported missing exactly when it does not occur, ignoring case |
| ExtractionQuality.QualityErrors | streamlit_app_v5.py:362-397 | the whole verdict on the joined vocabulary: thin-category errors first, then the generic, specific and required errors, each exactly when its check fails, in that order and nothing else; validity exactly when every check passes |
| ExtractionQuality.ExtractedTermNotMissing | streamlit_app_v5.py:370-392 | a required term that is itself an extracted item is never missing |
| ExtractionQuality.SpecificFromIff | streamlit_app_v5.py:382-384 | the specific-pattern count from an offset on is positive exactly when some match is counted at or after it |
| ExtractionQuality.SpecificCountIff | streamlit_app_v5.py:376-386 | the specific-pattern count is positive exactly when the text has one of the patterns the abstract-word filter treats as specific |
| Text.CountPositiveIffContains | streamlit_app_v5.py:1028 | `str.count` is positive exactly when the needle is a substring |
| Text.Find | streamlit_app_v5.py:1043 | `str.find` returns an offset where the needle occurs, with no earlier occurrence, or -1 exactly when it does not occur |
| Tsv.Sanitize | streamlit_app_v5.py:1264 | a sanitised cell has the same length, no tab or newline, and every other character unchanged |
| Tsv.SplitJoin | streamlit_app_v5.py:1254-1268 | splitting a joined text on its one-character separator gives the parts back when no part contains the separator |
| Tsv.RecordsFor | streamlit_app_v5.py:1251-1264 | the records read under the phase keys, an absent phase as an empty record; the read fails exactly when some phase holds a non-record value |
| Tsv.CleanRoundTrip | streamlit_app_v5.py:1247-1268 | the sanitised grid renders to nine lines, each splitting on tabs back into its eight cells |
| Tsv.ConvertToTsvCleanReadsBack | streamlit_app_v5.py:1229-1268 | with the header sanitised, every export reads back cell for cell |
| Tsv.TabInPhaseNameShiftsHeader | streamlit_app_v5.py:1250-1254 | as written, a first phase named "設計\t評価" gives a header line of nine cells over rows of eight |
| Tsv.TabInPhaseNameCleaned | streamlit_app_v5.py:1250-1254 | sanitising the header keeps the same table's header at eight cells |

## Left out

- User interface and session state are not modelled. This covers `main`, `__init__` and every `st.*` call.
- Network and language-model calls are not modelled, and neither is prompt construction. This covers `extract_job_specific_info`, `_llm_supplement`, `_perform_strong_search`, `regenerate_missing_phases` and the prompt strings of `generate_bp_with_job_info`. Their results enter the model as inputs.
- The embedding-similarity check (streamlit_app_v5.py:985-1006) is left out. It calls an external service and uses floating-point cosine arithmetic, so its extra issue is not modelled.
- `json.dumps` is not modelled. The whole-table text and the per-record rendering are parameters of the validator.
- `convert_to_html_table` is left out. It is display code over an escaping library.
- Static profile prose is not modelled. Most of it feeds prompts and the extraction pipeline, which are left out: phase overrides (streamlit_app_v5.py:643) become prompt skeleton lines, technical hints (streamlit_app_v5.py:259-261) top up thin categories after extraction, and key tests, stakeholder roles, query blocks, KPI templates and the meta structure shape prompts and searches. Secondary terms do reach the modelled code: `_get_required_terms` (streamlit_app_v5.py:399-402) joins core and secondary terms, deduplicated, into the required-term list. That list is the `required` parameter of ExtractionQuality.ValidateExtractionQuality, and how it is built is not modelled. The model keeps the name, core terms, scale stages, affinity table and hint key.
- `category_phase_priority` (streamlit_app_v5.py:852-861) is not modelled, because the enforcer never reads it.
- Floating-point rounding is left out. Scores are exact reals, so values that sit right at a threshold may be judged differently than Python's floats would judge them.
- Unicode case folding is only partly modelled. `Lower` folds ASCII and full-width Latin capitals; other scripts are left as they are.
- Python's Unicode `\w` and `\d` are approximated by listed ranges. `\w` becomes ASCII letters, digits and `_`, full-width Latin, hiragana, katakana, `ー` and the CJK block; `\d` becomes ASCII and full-width digits.
- Non-string field values and their `str()` rendering are left out. Fields are strings.
- Only the eight known vocabulary categories are modelled. Extra dictionary keys are not, and dictionary iteration follows the canonical category order. `filter_category_items` alone takes a string key, so unknown keys reach the empty allow-list there.
- Allocator.Allocate: repeated calls against one counter are not modelled. The code creates a fresh counter per call, so every call gives the same plan.
- Validator.Weight: the contract states only the lower bound. The eight exact weights are fixed data in the function.
- Enforcer.EnforceKeepsLimit: the bound needs representative lists without repeats. Enforcer.DuplicateTermPassesLimit shows that it fails without that condition.
- Enforcer.RepairFieldRepaired: a repaired field is not promised to pass its check afterwards. Terms run out at three uses, and an empty term matches nothing.
- Enforcer.RepairFieldRepaired: the rewrite of a failing field is promised only for vocabularies without empty terms, and for rules that keep the old text or have one group (all six do, Enforcer.RulesRepairable). An empty tool term written over an empty tools field leaves the text as it was.
- Enforcer.RepairFieldRepaired: which category of a group supplies its share (the first with a non-empty selection) is stated in general only as "one category of the group"; the fallback order is proved for two-group rules in Enforcer.PairRepairShape and Enforcer.ActivitiesRepairShape.
- The patterns `Inc\.?`, `Corp\.?` and `Ltd\.?` become literal searches for "Inc", "Corp" and "Ltd", which is equivalent. Bracketed classes followed by `+` become a prefix plus one class character, which is also equivalent for a search.

## Findings

| source | as written | input that shows it | evidently intended | confidence | as-written member | corrected member |
|---|---|---|---|---|---|---|
| streamlit_app_v5.py:1250-1254 | header cells are `str(phase.get('phase_name', pk))`, with tabs and newlines kept, while data cells have them replaced by spaces (line 1264) | a `phase_1` record whose `phase_name` is "設計\t評価" and no other phase name: the header line splits into 9 cells over rows of 8 | header cells sanitised like data cells, so that every line splits back into its 8 cells | medium, not executed | Tsv.ConvertToTsv, Tsv.TabInPhaseNameShiftsHeader | Tsv.ConvertToTsvClean, Tsv.ConvertToTsvCleanReadsBack |
