/**
 The closed vocabulary shared by every component: the eight term categories,
 the seven ordered phases, the static phase-affinity table, and the phase a
 term of a given category is placed in.
 */
module Domain {
  import opened Wrappers
  import opened StableSort

  datatype Category =
    | MaterialsOrProducts
    | ToolsAndEquipment
    | Processes
    | IndustrySpecificKpi
    | ConstraintsOrRegulations
    | CommonFailures
    | Stakeholders
    | Deliverables
  {
    /** The dictionary key the generator and the extractor use. */
    function Key(): string {
      match this
      case MaterialsOrProducts => "materials_or_products"
      case ToolsAndEquipment => "tools_and_equipment"
      case Processes => "processes"
      case IndustrySpecificKpi => "industry_specific_kpi"
      case ConstraintsOrRegulations => "constraints_or_regulations"
      case CommonFailures => "common_failures"
      case Stakeholders => "stakeholders"
      case Deliverables => "deliverables"
    }

    /** Position in `AllCategories`. */
    function Position(): nat {
      match this
      case MaterialsOrProducts => 0
      case ToolsAndEquipment => 1
      case Processes => 2
      case IndustrySpecificKpi => 3
      case ConstraintsOrRegulations => 4
      case CommonFailures => 5
      case Stakeholders => 6
      case Deliverables => 7
    }
  }

  datatype Phase = Phase1 | Phase2 | Phase3 | Phase4 | Phase5 | Phase6 | Phase7
  {
    /** The table key `phase_1` .. `phase_7`. */
    function Key(): string {
      match this
      case Phase1 => "phase_1"
      case Phase2 => "phase_2"
      case Phase3 => "phase_3"
      case Phase4 => "phase_4"
      case Phase5 => "phase_5"
      case Phase6 => "phase_6"
      case Phase7 => "phase_7"
    }

    /** Position in `AllPhases`: the phase order. */
    function Position(): nat {
      match this
      case Phase1 => 0
      case Phase2 => 1
      case Phase3 => 2
      case Phase4 => 3
      case Phase5 => 4
      case Phase6 => 5
      case Phase7 => 6
    }
  }

  /** The categories in the order the generator builds its `rep` dictionary. */
  const AllCategories: seq<Category> := [
    MaterialsOrProducts, ToolsAndEquipment, Processes, IndustrySpecificKpi,
    ConstraintsOrRegulations, CommonFailures, Stakeholders, Deliverables
  ]

  const AllPhases: seq<Phase> := [Phase1, Phase2, Phase3, Phase4, Phase5, Phase6, Phase7]

  // ---------------------------------------------------------------------------
  // Affinity

  type AffinityMap = map<Category, map<Phase, real>>

  /** `affinity_map.get(cat, {}).get(pk, default)`. */
  function ScoreOr(m: AffinityMap, c: Category, p: Phase, default: real): real {
    if c in m && p in m[c] then m[c][p] else default
  }

  /** The allocator's lookup, which defaults to 0. */
  function Score(m: AffinityMap, c: Category, p: Phase): real {
    ScoreOr(m, c, p, 0.0)
  }

  /** The rows of the shared table, one score per phase in phase order. */
  function AffinityRow(c: Category): (row: seq<real>)
    ensures |row| == 7
    ensures forall i | 0 <= i < 7 :: 0.0 <= row[i] <= 1.0
    ensures c == Stakeholders ==> forall i | 0 <= i < 7 :: row[i] == 0.5
  {
    match c
    case MaterialsOrProducts      => [0.8, 0.9, 1.0, 0.7, 0.3, 0.2, 0.4]
    case ToolsAndEquipment        => [0.7, 0.2, 0.8, 1.0, 0.9, 0.1, 0.5]
    case Processes                => [0.3, 0.4, 1.0, 0.9, 0.6, 0.2, 0.7]
    case IndustrySpecificKpi      => [0.5, 0.9, 0.7, 0.6, 1.0, 0.4, 0.8]
    case ConstraintsOrRegulations => [1.0, 0.9, 0.3, 0.2, 0.8, 0.7, 0.4]
    case CommonFailures           => [0.4, 0.5, 0.8, 0.7, 0.9, 0.3, 1.0]
    case Stakeholders             => [0.5, 0.5, 0.5, 0.5, 0.5, 0.5, 0.5]
    case Deliverables             => [0.6, 0.7, 0.9, 0.5, 1.0, 0.8, 0.6]
  }

  /** The shared table every profile carries. */
  const PhaseAffinityMap: AffinityMap :=
    map c: Category | c in AllCategories :: map p: Phase | p in AllPhases :: AffinityRow(c)[p.Position()]

  lemma CategoryListed(c: Category)
    ensures c in AllCategories && AllCategories[c.Position()] == c
  {
    match c
    case MaterialsOrProducts =>
    case ToolsAndEquipment =>
    case Processes =>
    case IndustrySpecificKpi =>
    case ConstraintsOrRegulations =>
    case CommonFailures =>
    case Stakeholders =>
    case Deliverables =>
  }

  lemma PhaseListed(p: Phase)
    ensures p in AllPhases && AllPhases[p.Position()] == p
  {
    match p
    case Phase1 =>
    case Phase2 =>
    case Phase3 =>
    case Phase4 =>
    case Phase5 =>
    case Phase6 =>
    case Phase7 =>
  }

  lemma PositionOfIndex(i: int)
    requires 0 <= i < |AllPhases|
    ensures AllPhases[i].Position() == i
  {
    if i == 0 {} else if i == 1 {} else if i == 2 {} else if i == 3 {} else if i == 4 {} else if i == 5 {} else {}
  }

  /** The shared table is total and reads back its rows. */
  lemma PhaseAffinityMapEntry(c: Category, p: Phase)
    ensures c in PhaseAffinityMap && p in PhaseAffinityMap[c]
    ensures Score(PhaseAffinityMap, c, p) == AffinityRow(c)[p.Position()]
  {
    CategoryListed(c);
    PhaseListed(p);
  }

  /** Every score of the shared table lies in [0,1]; stakeholders are flat at 0.5. */
  lemma PhaseAffinityMapBounds(c: Category, p: Phase)
    ensures 0.0 <= Score(PhaseAffinityMap, c, p) <= 1.0
    ensures c == Stakeholders ==> Score(PhaseAffinityMap, c, p) == 0.5
  {
    PhaseAffinityMapEntry(c, p);
  }

  // ---------------------------------------------------------------------------
  // Placement

  /** `p` is the first phase, in phase order, whose affinity for `c` is maximal. */
  ghost predicate IsFirstMax(m: AffinityMap, c: Category, p: Phase) {
    && (forall q: Phase :: Score(m, c, q) <= Score(m, c, p))
    && (forall q: Phase :: q.Position() < p.Position() ==> Score(m, c, q) < Score(m, c, p))
  }

  lemma FirstMaxUnique(m: AffinityMap, c: Category, p: Phase, q: Phase)
    requires IsFirstMax(m, c, p) && IsFirstMax(m, c, q)
    ensures p == q
  {
    PhaseListed(p);
    PhaseListed(q);
  }

  /** The sort key of the allocator: a phase's affinity for `c`. */
  function ScoreKey(m: AffinityMap, c: Category): Phase -> real {
    (p: Phase) => Score(m, c, p)
  }

  /** `sorted(phase_keys, key=lambda pk: score, reverse=True)`. */
  function RankedPhases(m: AffinityMap, c: Category): seq<Phase> {
    SortDesc(AllPhases, ScoreKey(m, c))
  }

  /** Index-wise maximality of the sort key in `AllPhases` is maximality over phases. */
  lemma IndexFirstMax(m: AffinityMap, c: Category, key: Phase -> real, i: nat)
    requires key == ScoreKey(m, c)
    requires i < |AllPhases|
    requires forall k | 0 <= k < |AllPhases| :: key(AllPhases[k]) <= key(AllPhases[i])
    requires forall k | 0 <= k < i :: key(AllPhases[k]) < key(AllPhases[i])
    ensures IsFirstMax(m, c, AllPhases[i])
  {
    PositionOfIndex(i);
    forall q: Phase
      ensures Score(m, c, q) <= Score(m, c, AllPhases[i])
      ensures q.Position() < i ==> Score(m, c, q) < Score(m, c, AllPhases[i])
    {
      PhaseListed(q);
      assert key(AllPhases[q.Position()]) <= key(AllPhases[i]);
    }
  }

  /** The sort puts the first index of maximal key at the head. */
  lemma RankedHead(m: AffinityMap, c: Category)
    ensures |RankedPhases(m, c)| == 7
    ensures RankedPhases(m, c)[0] == AllPhases[FirstMaxIndex(AllPhases, ScoreKey(m, c))]
  {
    SortHeadIsFirstMax(AllPhases, ScoreKey(m, c));
  }

  lemma FirstMaxIndexIsFirstMax(m: AffinityMap, c: Category)
    ensures IsFirstMax(m, c, AllPhases[FirstMaxIndex(AllPhases, ScoreKey(m, c))])
  {
    IndexFirstMax(m, c, ScoreKey(m, c), FirstMaxIndex(AllPhases, ScoreKey(m, c)));
  }

  /** By stability, the top-ranked phase is the first phase of maximal affinity. */
  lemma RankedHeadIsFirstMax(m: AffinityMap, c: Category)
    ensures |RankedPhases(m, c)| == 7
    ensures IsFirstMax(m, c, RankedPhases(m, c)[0])
  {
    RankedHead(m, c);
    FirstMaxIndexIsFirstMax(m, c);
  }

  /**
   The walk over the ranked phases: a phase below the threshold is taken
   only if it is the top-ranked one, otherwise the walk moves on; the first
   phase at or above the threshold is taken.
   */
  function WalkRanked(ranked: seq<Phase>, k: nat, score: Phase -> real, threshold: real): Option<Phase>
    requires 0 < |ranked| && k <= |ranked|
    decreases |ranked| - k
  {
    if k == |ranked| then None
    else if score(ranked[k]) < threshold then
      if ranked[k] == ranked[0] then Some(ranked[k]) else WalkRanked(ranked, k + 1, score, threshold)
    else Some(ranked[k])
  }

  /** The walk always stops at the top-ranked phase, above the threshold or not. */
  lemma WalkTakesTop(ranked: seq<Phase>, score: Phase -> real, threshold: real)
    requires 0 < |ranked|
    ensures WalkRanked(ranked, 0, score, threshold) == Some(ranked[0])
  {
  }

  /**
   The phase a term of category `c` is placed in, after the walk and the
   fallback to the top-ranked phase. Whatever the threshold, it is the first
   phase with maximal affinity.
   */
  function PlacementPhase(m: AffinityMap, c: Category, threshold: real): (p: Phase)
    ensures IsFirstMax(m, c, p)
  {
    var ranked := RankedPhases(m, c);
    RankedHeadIsFirstMax(m, c);
    var top := ranked[0];
    WalkTakesTop(ranked, ScoreKey(m, c), threshold);
    match WalkRanked(ranked, 0, ScoreKey(m, c), threshold)
    case Some(p) => p
    case None => top
  }

  /** The 0.6 threshold never changes where a term goes. */
  lemma ThresholdIrrelevant(m: AffinityMap, c: Category, t1: real, t2: real)
    ensures PlacementPhase(m, c, t1) == PlacementPhase(m, c, t2)
  {
    FirstMaxUnique(m, c, PlacementPhase(m, c, t1), PlacementPhase(m, c, t2));
  }

  /** A category absent from the map scores 0 everywhere and lands in phase_1. */
  lemma MissingCategoryGoesToPhase1(m: AffinityMap, c: Category, threshold: real)
    requires c !in m
    ensures PlacementPhase(m, c, threshold) == Phase1
  {
    FirstMaxUnique(m, c, PlacementPhase(m, c, threshold), Phase1);
  }

  /** The phase each category peaks in under the shared table (the first one on ties). */
  function StandardPhase(c: Category): Phase {
    match c
    case MaterialsOrProducts => Phase3
    case ToolsAndEquipment => Phase4
    case Processes => Phase3
    case IndustrySpecificKpi => Phase5
    case ConstraintsOrRegulations => Phase1
    case CommonFailures => Phase7
    case Stakeholders => Phase1
    case Deliverables => Phase5
  }

  /** Position `j` holds the first maximum of `row`. */
  ghost predicate PeaksFirstAt(row: seq<real>, j: int) {
    0 <= j < |row| && forall i | 0 <= i < |row| :: row[i] <= row[j] && (i < j ==> row[i] < row[j])
  }

  lemma StandardRowPeak(c: Category)
    ensures PeaksFirstAt(AffinityRow(c), StandardPhase(c).Position())
  {
  }

  /** One comparison against the standard phase, read off its row. */
  lemma StandardBeats(c: Category, q: Phase)
    ensures Score(PhaseAffinityMap, c, q) <= Score(PhaseAffinityMap, c, StandardPhase(c))
    ensures q.Position() < StandardPhase(c).Position() ==> Score(PhaseAffinityMap, c, q) < Score(PhaseAffinityMap, c, StandardPhase(c))
  {
    StandardRowPeak(c);
    PhaseAffinityMapEntry(c, StandardPhase(c));
    PhaseAffinityMapEntry(c, q);
    PhaseListed(q);
  }

  lemma StandardIsFirstMax(c: Category)
    ensures IsFirstMax(PhaseAffinityMap, c, StandardPhase(c))
  {
    forall q: Phase
      ensures Score(PhaseAffinityMap, c, q) <= Score(PhaseAffinityMap, c, StandardPhase(c))
      ensures q.Position() < StandardPhase(c).Position() ==> Score(PhaseAffinityMap, c, q) < Score(PhaseAffinityMap, c, StandardPhase(c))
    {
      StandardBeats(c, q);
    }
  }

  /** Where each category lands under the shared table. */
  lemma StandardPlacement(c: Category, threshold: real)
    ensures PlacementPhase(PhaseAffinityMap, c, threshold) == StandardPhase(c)
  {
    StandardIsFirstMax(c);
    FirstMaxUnique(PhaseAffinityMap, c, PlacementPhase(PhaseAffinityMap, c, threshold), StandardPhase(c));
  }
}
