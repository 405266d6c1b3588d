/**
 Layer 2 of the generator: the deterministic allocation of representative
 terms to phases, and the injection plan text that lists the allocation
 phase by phase. Every representative term, in category order and then in
 list order, is placed in the phase where its category has the highest
 affinity, unless the term has already been placed as often as its reuse
 limit allows within this allocation.
 */
module Allocator {
  import opened Wrappers
  import opened Text
  import opened Seqs
  import opened Domain

  /** The extracted terms per category (the job-specific information). */
  type Info = map<Category, seq<string>>

  /** `info.get(c, [])`. */
  function Terms(info: Info, c: Category): seq<string> {
    if c in info then info[c] else []
  }

  /** How many leading terms of each category become representative. */
  function RepLimit(c: Category): nat {
    match c
    case MaterialsOrProducts => 10
    case ToolsAndEquipment => 8
    case Processes => 10
    case IndustrySpecificKpi => 8
    case ConstraintsOrRegulations => 8
    case CommonFailures => 8
    case Stakeholders => 10
    case Deliverables => 8
  }

  /**
   The representative subset of a category: a prefix of the extracted list,
   no longer than the category's limit, and the whole list when that is
   shorter than the limit.
   */
  function RepTerms(info: Info, c: Category): (r: seq<string>)
    ensures r <= Terms(info, c)
    ensures |r| <= RepLimit(c)
    ensures |r| < RepLimit(c) ==> r == Terms(info, c)
  {
    var ts := Terms(info, c);
    if |ts| <= RepLimit(c) then ts else ts[..RepLimit(c)]
  }

  /** The representative dictionary, one entry per category. */
  function Representative(info: Info): Info {
    map c: Category | c in AllCategories :: RepTerms(info, c)
  }

  lemma RepresentativeEntry(info: Info, c: Category)
    ensures c in Representative(info) && Representative(info)[c] == RepTerms(info, c)
  {
    CategoryListed(c);
  }

  const AffinityThreshold: real := 0.6
  const MaxReuseStandard: nat := 3
  const MaxReuseCore: nat := 5

  /** How often one allocation may place `t`: core terms of the profile may be reused more. */
  function ReuseLimit(core: set<string>, t: string): nat {
    if t in core then MaxReuseCore else MaxReuseStandard
  }

  // ---------------------------------------------------------------------------
  // The allocation loop

  /** One iteration of the nested loop: a term together with its category. */
  datatype Slot = Slot(category: Category, term: string)

  datatype Placement = Placement(category: Category, phase: Phase, term: string)

  /** The placements made so far, in order, and the per-term usage counter. */
  datatype Allocation = Allocation(placements: seq<Placement>, usage: map<string, nat>)

  function CategorySlots(c: Category, terms: seq<string>): seq<Slot> {
    seq(|terms|, i requires 0 <= i < |terms| => Slot(c, terms[i]))
  }

  /** The iterations of the nested loop over `cats` and their representative terms. */
  function SlotsFrom(info: Info, cats: seq<Category>): seq<Slot>
    decreases |cats|
  {
    if cats == [] then [] else CategorySlots(cats[0], RepTerms(info, cats[0])) + SlotsFrom(info, cats[1..])
  }

  function RepSlots(info: Info): seq<Slot> {
    SlotsFrom(info, AllCategories)
  }

  /** `usage_count.get(t, 0)`. */
  function Uses(usage: map<string, nat>, t: string): nat {
    if t in usage then usage[t] else 0
  }

  /**
   One loop iteration: skip an exhausted term, otherwise append it to the
   phase `place` chooses for its category and count it.
   */
  function PlaceSlot(a: Allocation, s: Slot, core: set<string>, place: Category -> Phase): Allocation {
    var current := Uses(a.usage, s.term);
    if current >= ReuseLimit(core, s.term) then a
    else Allocation(a.placements + [Placement(s.category, place(s.category), s.term)], a.usage[s.term := current + 1])
  }

  /**
   The loop over `slots` from a fresh counter. Every placement is one of the
   loop's terms, put where `place` says.
   */
  function PlaceAll(slots: seq<Slot>, core: set<string>, place: Category -> Phase): (r: Allocation)
    ensures |r.placements| <= |slots|
    ensures forall i | 0 <= i < |r.placements| ::
              && Slot(r.placements[i].category, r.placements[i].term) in slots
              && r.placements[i].phase == place(r.placements[i].category)
    decreases |slots|
  {
    if slots == [] then Allocation([], map[])
    else
      var init := slots[..|slots| - 1];
      assert forall s | s in init :: s in slots;
      PlaceSlot(PlaceAll(init, core, place), slots[|slots| - 1], core, place)
  }

  /** Whether the loop places slot `s` given the counter so far. */
  predicate Admits(usage: map<string, nat>, s: Slot, core: set<string>) {
    Uses(usage, s.term) < ReuseLimit(core, s.term)
  }

  /** One more iteration either appends one placement and bumps one counter, or changes nothing. */
  lemma PlaceAllStep(slots: seq<Slot>, core: set<string>, place: Category -> Phase)
    requires slots != []
    ensures var a0 := PlaceAll(slots[..|slots| - 1], core, place);
            var s := slots[|slots| - 1];
            var a := PlaceAll(slots, core, place);
            if Admits(a0.usage, s, core) then
              && a.placements == a0.placements + [Placement(s.category, place(s.category), s.term)]
              && a.usage == a0.usage[s.term := Uses(a0.usage, s.term) + 1]
            else a == a0
  {
  }

  /** The affinity placement rule with the generator's threshold. */
  function BestPhases(aff: AffinityMap): Category -> Phase {
    c => PlacementPhase(aff, c, AffinityThreshold)
  }

  /**
   The whole allocation of the representative terms. Every placement is a
   representative term of its category, put in the first phase of maximal
   affinity for that category.
   */
  function Allocate(info: Info, core: set<string>, aff: AffinityMap): (r: Allocation)
    ensures forall k | 0 <= k < |r.placements| ::
              && Slot(r.placements[k].category, r.placements[k].term) in RepSlots(info)
              && IsFirstMax(aff, r.placements[k].category, r.placements[k].phase)
  {
    PlaceAll(RepSlots(info), core, BestPhases(aff))
  }

  // ---------------------------------------------------------------------------
  // Counting

  function SlotTerms(slots: seq<Slot>): seq<string> {
    seq(|slots|, i requires 0 <= i < |slots| => slots[i].term)
  }

  function PlacedTerms(ps: seq<Placement>): seq<string> {
    seq(|ps|, i requires 0 <= i < |ps| => ps[i].term)
  }

  /**
   The counter always equals the number of placements of a term, and a term
   is placed exactly as often as it occurs in the loop, up to its reuse limit.
   */
  lemma {:induction false} PlaceAllCounts(slots: seq<Slot>, core: set<string>, place: Category -> Phase, t: string)
    ensures Uses(PlaceAll(slots, core, place).usage, t) == multiset(PlacedTerms(PlaceAll(slots, core, place).placements))[t]
    ensures multiset(PlacedTerms(PlaceAll(slots, core, place).placements))[t] == Min(ReuseLimit(core, t), multiset(SlotTerms(slots))[t])
    decreases |slots|
  {
    if slots != [] {
      var init := slots[..|slots| - 1];
      var s := slots[|slots| - 1];
      var a0 := PlaceAll(init, core, place);
      var a := PlaceAll(slots, core, place);
      PlaceAllCounts(init, core, place, t);
      PlaceAllCounts(init, core, place, s.term);
      PlaceAllStep(slots, core, place);
      TermsAppend(init, s, a0.placements, Placement(s.category, place(s.category), s.term));
      assert init + [s] == slots;
      var placed := Admits(a0.usage, s, core);
      CountStep(a0, a, s, placed, core, t, multiset(SlotTerms(init)), multiset(SlotTerms(slots)));
    }
  }

  lemma TermsAppend(slots: seq<Slot>, s: Slot, ps: seq<Placement>, pl: Placement)
    ensures SlotTerms(slots + [s]) == SlotTerms(slots) + [s.term]
    ensures PlacedTerms(ps + [pl]) == PlacedTerms(ps) + [pl.term]
  {
  }

  lemma CountStep(a0: Allocation, a: Allocation, s: Slot, placed: bool, core: set<string>, t: string,
                  before: multiset<string>, after: multiset<string>)
    requires after == before + multiset{s.term}
    requires Uses(a0.usage, t) == multiset(PlacedTerms(a0.placements))[t]
    requires Uses(a0.usage, s.term) == multiset(PlacedTerms(a0.placements))[s.term]
    requires multiset(PlacedTerms(a0.placements))[t] == Min(ReuseLimit(core, t), before[t])
    requires multiset(PlacedTerms(a0.placements))[s.term] == Min(ReuseLimit(core, s.term), before[s.term])
    requires placed == Admits(a0.usage, s, core)
    requires placed ==> a.usage == a0.usage[s.term := Uses(a0.usage, s.term) + 1]
    requires placed ==> PlacedTerms(a.placements) == PlacedTerms(a0.placements) + [s.term]
    requires !placed ==> a == a0
    ensures Uses(a.usage, t) == multiset(PlacedTerms(a.placements))[t]
    ensures multiset(PlacedTerms(a.placements))[t] == Min(ReuseLimit(core, t), after[t])
  {
  }

  /**
   The allocation places each term exactly `min(limit, occurrences)` times:
   never more than 5 times for a core term or 3 times otherwise, and every
   representative occurrence within the limit is placed.
   */
  lemma AllocateCounts(info: Info, core: set<string>, aff: AffinityMap, t: string)
    ensures multiset(PlacedTerms(Allocate(info, core, aff).placements))[t]
            == Min(ReuseLimit(core, t), multiset(SlotTerms(RepSlots(info)))[t])
    ensures multiset(PlacedTerms(Allocate(info, core, aff).placements))[t] <= (if t in core then 5 else 3)
  {
    PlaceAllCounts(RepSlots(info), core, BestPhases(aff), t);
  }

  // ---------------------------------------------------------------------------
  // Cells: assignments[pk][cat]

  /** The terms appended to `assignments[p][c]`, in append order. */
  function Cell(ps: seq<Placement>, p: Phase, c: Category): seq<string>
    decreases |ps|
  {
    if ps == [] then []
    else
      var last := ps[|ps| - 1];
      Cell(ps[..|ps| - 1], p, c) + (if last.phase == p && last.category == c then [last.term] else [])
  }

  /** The terms of category `c` in the loop, in loop order. */
  function CategoryTerms(slots: seq<Slot>, c: Category): seq<string>
    decreases |slots|
  {
    if slots == [] then []
    else
      var last := slots[|slots| - 1];
      CategoryTerms(slots[..|slots| - 1], c) + (if last.category == c then [last.term] else [])
  }

  /** Every placement shows up in its own cell. */
  lemma {:induction false} PlacementInCell(ps: seq<Placement>, k: int)
    requires 0 <= k < |ps|
    ensures ps[k].term in Cell(ps, ps[k].phase, ps[k].category)
    decreases |ps|
  {
    if k < |ps| - 1 {
      PlacementInCell(ps[..|ps| - 1], k);
    }
  }

  /**
   A category fills only the cell of its best phase, and that cell lists the
   category's terms in loop order with the exhausted ones left out.
   */
  lemma {:induction false} PlaceAllCells(slots: seq<Slot>, core: set<string>, place: Category -> Phase, c: Category)
    ensures IsSubsequence(Cell(PlaceAll(slots, core, place).placements, place(c), c), CategoryTerms(slots, c))
    ensures forall p: Phase | p != place(c) :: Cell(PlaceAll(slots, core, place).placements, p, c) == []
    decreases |slots|
  {
    if slots != [] {
      var init := slots[..|slots| - 1];
      var s := slots[|slots| - 1];
      PlaceAllCells(init, core, place, c);
      PlaceAllStep(slots, core, place);
      var a0 := PlaceAll(init, core, place);
      var a := PlaceAll(slots, core, place);
      var before := Cell(a0.placements, place(c), c);
      var terms0 := CategoryTerms(init, c);
      assert CategoryTerms(slots, c) == terms0 + (if s.category == c then [s.term] else []);
      if Admits(a0.usage, s, core) {
        var pl := Placement(s.category, place(s.category), s.term);
        CellAppend(a0.placements, pl, c);
        if s.category == c {
          assert Cell(a.placements, place(c), c) == before + [s.term];
          SubsequenceTake(before, terms0, s.term);
        } else {
          assert Cell(a.placements, place(c), c) == before;
          assert CategoryTerms(slots, c) == terms0;
        }
      } else if s.category == c {
        SubsequenceExtend(before, terms0, s.term);
      } else {
        assert a == a0;
        assert CategoryTerms(slots, c) == terms0;
      }
    }
  }

  /**
   A term that the loop offers no more often than its reuse limit is never
   skipped: the best phase's cell holds it exactly as often as the category
   offers it.
   */
  lemma {:induction false} PlaceAllCellCount(slots: seq<Slot>, core: set<string>, place: Category -> Phase, c: Category, t: string)
    requires multiset(SlotTerms(slots))[t] <= ReuseLimit(core, t)
    ensures multiset(Cell(PlaceAll(slots, core, place).placements, place(c), c))[t] == multiset(CategoryTerms(slots, c))[t]
    decreases |slots|
  {
    if slots != [] {
      var init := slots[..|slots| - 1];
      var s := slots[|slots| - 1];
      SlotTermsStep(slots, t);
      PlaceAllCellCount(init, core, place, c, t);
      CellCountStep(slots, core, place, c, t);
      assert CategoryTerms(slots, c) == CategoryTerms(init, c) + (if s.category == c then [s.term] else []);
    }
  }

  lemma SlotTermsStep(slots: seq<Slot>, t: string)
    requires slots != []
    ensures multiset(SlotTerms(slots))[t] == multiset(SlotTerms(slots[..|slots| - 1]))[t] + (if slots[|slots| - 1].term == t then 1 else 0)
  {
    var init := slots[..|slots| - 1];
    assert SlotTerms(slots) == SlotTerms(init) + [slots[|slots| - 1].term];
  }

  /** The last slot adds its term to the cell when it is offered within the limit. */
  lemma CellCountStep(slots: seq<Slot>, core: set<string>, place: Category -> Phase, c: Category, t: string)
    requires slots != [] && multiset(SlotTerms(slots))[t] <= ReuseLimit(core, t)
    ensures var s := slots[|slots| - 1];
            multiset(Cell(PlaceAll(slots, core, place).placements, place(c), c))[t]
            == multiset(Cell(PlaceAll(slots[..|slots| - 1], core, place).placements, place(c), c))[t] + (if s.category == c && s.term == t then 1 else 0)
  {
    var init := slots[..|slots| - 1];
    var s := slots[|slots| - 1];
    var a0 := PlaceAll(init, core, place);
    if s.term == t {
      SlotTermsStep(slots, t);
      PlaceAllCounts(init, core, place, t);
      assert Admits(a0.usage, s, core);
    }
    CellStep(slots, core, place, c);
  }

  /** The last slot's term joins its category's cell in the best phase when the slot is admitted. */
  lemma CellStep(slots: seq<Slot>, core: set<string>, place: Category -> Phase, c: Category)
    requires slots != []
    ensures var s := slots[|slots| - 1];
            var a0 := PlaceAll(slots[..|slots| - 1], core, place);
            Cell(PlaceAll(slots, core, place).placements, place(c), c)
            == Cell(a0.placements, place(c), c) + (if Admits(a0.usage, s, core) && s.category == c then [s.term] else [])
  {
    var s := slots[|slots| - 1];
    var a0 := PlaceAll(slots[..|slots| - 1], core, place);
    PlaceAllStep(slots, core, place);
    if Admits(a0.usage, s, core) {
      CellAppend(a0.placements, Placement(s.category, place(s.category), s.term), c);
    }
  }

  lemma CellAppend(ps: seq<Placement>, pl: Placement, c: Category)
    ensures forall p :: Cell(ps + [pl], p, c) == Cell(ps, p, c) + (if pl.phase == p && pl.category == c then [pl.term] else [])
  {
    assert (ps + [pl])[..|ps|] == ps;
  }

  lemma {:induction false} CategoryTermsAppend(xs: seq<Slot>, ys: seq<Slot>, c: Category)
    ensures CategoryTerms(xs + ys, c) == CategoryTerms(xs, c) + CategoryTerms(ys, c)
    decreases |ys|
  {
    if ys == [] {
      assert xs + ys == xs;
    } else {
      assert (xs + ys)[..|xs + ys| - 1] == xs + ys[..|ys| - 1];
      CategoryTermsAppend(xs, ys[..|ys| - 1], c);
    }
  }

  lemma {:induction false} CategoryTermsOfSlots(d: Category, terms: seq<string>, c: Category)
    ensures CategoryTerms(CategorySlots(d, terms), c) == (if d == c then terms else [])
    decreases |terms|
  {
    if terms != [] {
      assert CategorySlots(d, terms)[..|terms| - 1] == CategorySlots(d, terms[..|terms| - 1]);
      CategoryTermsOfSlots(d, terms[..|terms| - 1], c);
      assert terms == terms[..|terms| - 1] + [terms[|terms| - 1]];
    }
  }

  lemma {:induction false} CategoryTermsFrom(info: Info, cats: seq<Category>, c: Category)
    requires Distinct(cats)
    ensures CategoryTerms(SlotsFrom(info, cats), c) == (if c in cats then RepTerms(info, c) else [])
    decreases |cats|
  {
    if cats != [] {
      assert Distinct(cats[1..]);
      CategoryTermsFrom(info, cats[1..], c);
      CategoryTermsAppend(CategorySlots(cats[0], RepTerms(info, cats[0])), SlotsFrom(info, cats[1..]), c);
      CategoryTermsOfSlots(cats[0], RepTerms(info, cats[0]), c);
      if cats[0] == c {
        assert c !in cats[1..];
      }
    }
  }

  lemma CategoriesDistinct()
    ensures Distinct(AllCategories)
  {
    forall i, j | 0 <= i < j < |AllCategories|
      ensures AllCategories[i] != AllCategories[j]
    {
      CategoryPositionOfIndex(i);
      CategoryPositionOfIndex(j);
    }
  }

  lemma CategoryPositionOfIndex(i: int)
    requires 0 <= i < |AllCategories|
    ensures AllCategories[i].Position() == i
  {
    if i == 0 {} else if i == 1 {} else if i == 2 {} else if i == 3 {}
    else if i == 4 {} else if i == 5 {} else if i == 6 {} else {}
  }

  /** Every term offered within its reuse limit fills a category's best cell as often as the category offers it. */
  lemma AllocateCellCounts(info: Info, core: set<string>, aff: AffinityMap, c: Category)
    ensures forall t | multiset(SlotTerms(RepSlots(info)))[t] <= ReuseLimit(core, t) ::
              multiset(Cell(Allocate(info, core, aff).placements, PlacementPhase(aff, c, AffinityThreshold), c))[t] == multiset(RepTerms(info, c))[t]
  {
    forall t | multiset(SlotTerms(RepSlots(info)))[t] <= ReuseLimit(core, t)
      ensures multiset(Cell(Allocate(info, core, aff).placements, PlacementPhase(aff, c, AffinityThreshold), c))[t] == multiset(RepTerms(info, c))[t]
    {
      AllocateCellCount(info, core, aff, c, t);
    }
  }

  /**
   In the allocation, the cell of a category's best phase keeps the
   representative terms in their extracted order (skipping exhausted ones),
   and the category's cells in every other phase stay empty. How many copies
   of a term the cell holds is AllocateCellCounts.
   */
  lemma AllocateCells(info: Info, core: set<string>, aff: AffinityMap, c: Category)
    ensures IsSubsequence(Cell(Allocate(info, core, aff).placements, PlacementPhase(aff, c, AffinityThreshold), c), RepTerms(info, c))
    ensures forall p: Phase | p != PlacementPhase(aff, c, AffinityThreshold) :: Cell(Allocate(info, core, aff).placements, p, c) == []
  {
    RepCategoryTerms(info, c);
    PlaceAllCells(RepSlots(info), core, BestPhases(aff), c);
  }

  /** A term offered within its reuse limit fills a category's best cell as often as the category offers it. */
  lemma AllocateCellCount(info: Info, core: set<string>, aff: AffinityMap, c: Category, t: string)
    requires multiset(SlotTerms(RepSlots(info)))[t] <= ReuseLimit(core, t)
    ensures multiset(Cell(Allocate(info, core, aff).placements, PlacementPhase(aff, c, AffinityThreshold), c))[t] == multiset(RepTerms(info, c))[t]
  {
    RepCategoryTerms(info, c);
    PlaceAllCellCount(RepSlots(info), core, BestPhases(aff), c, t);
  }

  /** The slots of one category, in slot order, are its representative terms. */
  lemma RepCategoryTerms(info: Info, c: Category)
    ensures CategoryTerms(RepSlots(info), c) == RepTerms(info, c)
  {
    CategoriesDistinct();
    CategoryListed(c);
    CategoryTermsFrom(info, AllCategories, c);
  }

  // ---------------------------------------------------------------------------
  // The injection plan text

  /** The label of a category on a plan line. */
  function PlanLabel(c: Category): string {
    match c
    case MaterialsOrProducts => "materials"
    case ToolsAndEquipment => "tools"
    case Processes => "processes"
    case IndustrySpecificKpi => "kpi"
    case ConstraintsOrRegulations => "regulations"
    case CommonFailures => "failures"
    case Stakeholders => "stakeholders"
    case Deliverables => "deliverables"
  }

  function PlanSegment(ps: seq<Placement>, p: Phase, c: Category): string {
    PlanLabel(c) + "=" + Join(Cell(ps, p, c), ", ")
  }

  /** `phase_k: materials=… | tools=… | … | deliverables=…`. */
  function PlanLine(ps: seq<Placement>, p: Phase): string {
    p.Key() + ": " + Join(seq(8, i requires 0 <= i < 8 => PlanSegment(ps, p, AllCategories[i])), " | ")
  }

  /** The seven plan lines joined by newlines. */
  function PlanText(a: Allocation): string {
    Join(seq(7, i requires 0 <= i < 7 => PlanLine(a.placements, AllPhases[i])), "\n")
  }

  /** Every placed term is spelled out in the injection plan. */
  lemma PlanMentionsPlacement(a: Allocation, k: int)
    requires 0 <= k < |a.placements|
    ensures Contains(PlanText(a), a.placements[k].term)
  {
    var ps := a.placements;
    var pl := ps[k];
    var cell := Cell(ps, pl.phase, pl.category);
    PlacementInCell(ps, k);
    var j :| 0 <= j < |cell| && cell[j] == pl.term;
    JoinContainsParts(cell, ", ");
    var segment := PlanSegment(ps, pl.phase, pl.category);
    ContainsPrepend(PlanLabel(pl.category) + "=", Join(cell, ", "), pl.term);
    CategoryListed(pl.category);
    var segments := seq(8, i requires 0 <= i < 8 => PlanSegment(ps, pl.phase, AllCategories[i]));
    assert segments[pl.category.Position()] == segment;
    JoinContainsParts(segments, " | ");
    ContainsTrans(Join(segments, " | "), segment, pl.term);
    var line := PlanLine(ps, pl.phase);
    ContainsPrepend(pl.phase.Key() + ": ", Join(segments, " | "), pl.term);
    PhaseListed(pl.phase);
    var lines := seq(7, i requires 0 <= i < 7 => PlanLine(ps, AllPhases[i]));
    assert lines[pl.phase.Position()] == line;
    JoinContainsParts(lines, "\n");
    ContainsTrans(PlanText(a), line, pl.term);
  }
}
