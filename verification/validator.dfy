/**
 Layer 3 of the generator: the specificity check of a generated table. It
 counts how often the extracted terms and a fixed list of generic words occur
 in the rendered table, measures how much of each category's reference subset
 is reflected, checks the order of the profile's scale stages and the spread
 of RACI letters over the stakeholder fields, and lists the phases and the
 categories that mention no extracted term. The table passes when no check
 reports an issue.

 The JSON rendering of the table and of each phase record is an input
 (`tableText`, `render`): the model does not define `json.dumps`.
 */
module Validator {
  import opened Wrappers
  import opened Text
  import opened Seqs
  import opened Domain
  import opened PhaseTable
  import opened Allocator

  datatype Issue =
    | MissingInput
    | LowSpecificRatio
    | HighGenericRatio
    | FewSpecificTerms
    | LowCoverage
    | ScaleOrderBroken
    | RaciMissing(letters: seq<char>)
    | PhasesWithoutTerms(names: seq<string>)
    | UnreflectedCategories(cats: seq<Category>)

  datatype Metrics = Metrics(
    specificCount: nat,
    genericCount: nat,
    totalWords: nat,
    specificRatio: real,
    genericRatio: real,
    coverage: map<Category, real>,
    weightedCoverage: real,
    scaleOrderOk: Option<bool>,
    raciMissing: seq<char>,
    phasesWithoutTerms: seq<string>,
    missingCategories: seq<Category>)

  /** `(is_valid, errors, metrics)`; the metrics are absent when the input guard fails. */
  datatype Verdict = Verdict(passed: bool, errors: seq<Issue>, metrics: Option<Metrics>)

  // ---------------------------------------------------------------------------
  // Term counts

  /** Every extracted term, category by category. */
  function AllTerms(info: Info, cats: seq<Category>): seq<string>
    decreases |cats|
  {
    if cats == [] then [] else Terms(info, cats[0]) + AllTerms(info, cats[1..])
  }

  /** The summed case-insensitive occurrence counts of the terms in the (already lowered) text. */
  function SumCounts(lowText: string, terms: seq<string>): nat
    decreases |terms|
  {
    if terms == [] then 0 else Count(lowText, Lower(terms[0])) + SumCounts(lowText, terms[1..])
  }

  /** A sum of counts is zero exactly when no term occurs; the empty term always occurs. */
  lemma {:induction false} SumCountsZero(lowText: string, terms: seq<string>)
    ensures SumCounts(lowText, terms) == 0 <==> forall i | 0 <= i < |terms| :: !Contains(lowText, Lower(terms[i]))
    decreases |terms|
  {
    if terms != [] {
      CountPositiveIffContains(lowText, Lower(terms[0]));
      SumCountsZero(lowText, terms[1..]);
      assert forall i | 1 <= i < |terms| :: terms[i] == terms[1..][i - 1];
    }
  }

  /** Generic business words whose frequency marks a table as generic. */
  const GenericWords: seq<string> := [
    "市場調査", "資料作成", "データ分析", "会議", "レポート作成",
    "情報収集", "課題抽出", "改善提案", "品質管理", "プロジェクト管理",
    "ツール", "システム", "ソフトウェア", "装置", "機器"
  ]

  /** The generic words are matched as written: the lowered text is searched for them unlowered. */
  function GenericCount(lowText: string, words: seq<string>): nat
    decreases |words|
  {
    if words == [] then 0 else Count(lowText, words[0]) + GenericCount(lowText, words[1..])
  }

  /** `count / max(total, 1) * 100`. */
  function Ratio(count: nat, total: nat): real {
    (count as real) / (Max(total, 1) as real) * 100.0
  }

  /** A ratio against a percentage bound is an integer comparison of cross products. */
  lemma RatioCompare(count: nat, total: nat, bound: nat)
    ensures Ratio(count, total) < bound as real <==> 100 * count < bound * Max(total, 1)
    ensures Ratio(count, total) > bound as real <==> 100 * count > bound * Max(total, 1)
  {
    var d := Max(total, 1) as real;
    var q := (count as real) / d;
    assert q * d == count as real;
    assert Ratio(count, total) * d == 100.0 * (count as real);
    assert (100 * count) as real == 100.0 * (count as real);
    assert (bound * Max(total, 1)) as real == (bound as real) * d;
  }

  // ---------------------------------------------------------------------------
  // Coverage

  /** The category weights of the weighted coverage. */
  function Weight(c: Category): (w: real)
    ensures w >= 1.0
  {
    match c
    case MaterialsOrProducts => 2.0
    case Processes => 2.0
    case ToolsAndEquipment => 1.5
    case IndustrySpecificKpi => 1.5
    case ConstraintsOrRegulations => 1.2
    case CommonFailures => 1.2
    case Stakeholders => 1.0
    case Deliverables => 1.0
  }

  /** The term occurs in the lowered text. */
  function Found(lowText: string): string -> bool {
    t => Count(lowText, Lower(t)) > 0
  }

  /**
   The share of a category's reference subset that occurs in the text. The
   reference limits of the coverage check are the representative limits
   (10 for materials, processes and stakeholders, 8 otherwise), so the
   reference subset is `RepTerms`.
   */
  function Coverage(info: Info, c: Category, lowText: string): (r: real)
    ensures 0.0 <= r <= 1.0
  {
    var subset := RepTerms(info, c);
    FilterFacts(subset, Found(lowText));
    DivUnit(|Filter(subset, Found(lowText))| as real, Max(|subset|, 1) as real);
    (|Filter(subset, Found(lowText))| as real) / (Max(|subset|, 1) as real)
  }

  /** The weighted coverage sum and the total weight over the listed categories that have terms. */
  function CoverageSums(info: Info, cats: seq<Category>, lowText: string): (r: (real, real))
    ensures 0.0 <= r.0 <= r.1
    ensures r.1 == 0.0 <==> forall i | 0 <= i < |cats| :: Terms(info, cats[i]) == []
    decreases |cats|
  {
    if cats == [] then (0.0, 0.0)
    else
      var rest := CoverageSums(info, cats[1..], lowText);
      assert forall i | 1 <= i < |cats| :: cats[i] == cats[1..][i - 1];
      if Terms(info, cats[0]) == [] then rest
      else
        var cov := Coverage(info, cats[0], lowText);
        ScaleUnit(cov, Weight(cats[0]));
        (rest.0 + cov * Weight(cats[0]), rest.1 + Weight(cats[0]))
  }

  /** `weighted_sum / max(weight_total, 1e-9)`: a value in [0, 1], 0 when no category has terms. */
  function WeightedCoverage(info: Info, cats: seq<Category>, lowText: string): (r: real)
    ensures 0.0 <= r <= 1.0
    ensures (forall i | 0 <= i < |cats| :: Terms(info, cats[i]) == []) ==> r == 0.0
  {
    var sums := CoverageSums(info, cats, lowText);
    var total := if sums.1 >= 0.000000001 then sums.1 else 0.000000001;
    DivUnit(sums.0, total);
    sums.0 / total
  }

  lemma ScaleUnit(x: real, w: real)
    requires 0.0 <= x <= 1.0 && 0.0 < w
    ensures 0.0 <= x * w <= w
  {
  }

  lemma DivUnit(n: real, d: real)
    requires 0.0 <= n && 0.0 < d && (n <= d || n == 0.0)
    ensures 0.0 <= n / d <= 1.0
  {
    assert n / d * d == n;
  }

  /** The per-category coverage of every category that has terms. */
  function CoverageMap(info: Info, lowText: string): (m: map<Category, real>)
    ensures forall c :: c in m <==> Terms(info, c) != []
  {
    EveryCategoryListed();
    map c: Category | c in AllCategories && Terms(info, c) != [] :: Coverage(info, c, lowText)
  }

  lemma EveryCategoryListed()
    ensures forall c: Category :: c in AllCategories
  {
    forall c: Category ensures c in AllCategories {
      CategoryListed(c);
    }
  }

  /** Categories present in the input whose reference subset does not occur anywhere. */
  function MissingCategories(info: Info, lowText: string): seq<Category> {
    Filter(AllCategories, c => c in info && SumCounts(lowText, RepTerms(info, c)) == 0)
  }

  // ---------------------------------------------------------------------------
  // Scale stages

  /** The stage walk: a stage found before the last found stage breaks the order. */
  function ScaleWalk(stages: seq<string>, text: string, last: int): bool
    decreases |stages|
  {
    if stages == [] then true
    else
      var idx := Find(text, stages[0]);
      if idx >= 0 then
        if idx < last then false else ScaleWalk(stages[1..], text, idx)
      else ScaleWalk(stages[1..], text, last)
  }

  /** The first positions of the stages that occur, in stage order. */
  function FoundPositions(stages: seq<string>, text: string): seq<int>
    decreases |stages|
  {
    if stages == [] then []
    else (if Find(text, stages[0]) >= 0 then [Find(text, stages[0])] else []) + FoundPositions(stages[1..], text)
  }

  ghost predicate Ascending(xs: seq<int>) {
    forall i, j | 0 <= i < j < |xs| :: xs[i] <= xs[j]
  }

  /** The walk passes exactly when the found positions, after the start mark, never go down. */
  lemma {:induction false} ScaleWalkAscending(stages: seq<string>, text: string, last: int)
    ensures ScaleWalk(stages, text, last) <==> Ascending([last] + FoundPositions(stages, text))
    decreases |stages|
  {
    if stages != [] {
      var idx := Find(text, stages[0]);
      var rest := FoundPositions(stages[1..], text);
      if idx >= 0 {
        ScaleWalkAscending(stages[1..], text, idx);
        AscendingCons(last, idx, rest);
      } else {
        ScaleWalkAscending(stages[1..], text, last);
        assert [last] + FoundPositions(stages, text) == [last] + rest;
      }
    }
  }

  lemma AscendingCons(a: int, b: int, rest: seq<int>)
    ensures Ascending([a] + ([b] + rest)) <==> a <= b && Ascending([b] + rest)
  {
    var xs := [a] + ([b] + rest);
    if a <= b && Ascending([b] + rest) {
      forall i, j | 0 <= i < j < |xs| ensures xs[i] <= xs[j] {
        if i == 0 {
          assert xs[j] == ([b] + rest)[j - 1];
          assert ([b] + rest)[0] <= ([b] + rest)[j - 1] || j == 1;
        } else {
          assert xs[i] == ([b] + rest)[i - 1] && xs[j] == ([b] + rest)[j - 1];
        }
      }
    }
    if Ascending(xs) {
      assert xs[0] <= xs[1];
      forall i, j | 0 <= i < j < |[b] + rest| ensures ([b] + rest)[i] <= ([b] + rest)[j] {
        assert xs[i + 1] <= xs[j + 1];
      }
    }
  }

  /** The stage order passes exactly when the stages that occur do so in non-decreasing positions. */
  lemma ScaleOrderIffAscending(stages: seq<string>, text: string)
    ensures ScaleWalk(stages, text, -1) <==> Ascending(FoundPositions(stages, text))
  {
    ScaleWalkAscending(stages, text, -1);
    FoundPositionsNonNegative(stages, text);
    var xs := FoundPositions(stages, text);
    var ys := [-1] + xs;
    if Ascending(xs) {
      forall i, j | 0 <= i < j < |ys| ensures ys[i] <= ys[j] {
        if i > 0 {
          assert ys[i] == xs[i - 1] && ys[j] == xs[j - 1];
        } else {
          assert ys[j] == xs[j - 1];
        }
      }
    }
    if Ascending(ys) {
      forall i, j | 0 <= i < j < |xs| ensures xs[i] <= xs[j] {
        assert ys[i + 1] <= ys[j + 1];
      }
    }
  }

  lemma {:induction false} FoundPositionsNonNegative(stages: seq<string>, text: string)
    ensures forall i | 0 <= i < |FoundPositions(stages, text)| :: FoundPositions(stages, text)[i] >= 0
    decreases |stages|
  {
    if stages != [] {
      FoundPositionsNonNegative(stages[1..], text);
    }
  }

  // ---------------------------------------------------------------------------
  // RACI letters

  /** The stakeholder fields of all records, each followed by a space. */
  function StakeholderText(items: seq<Item>): string
    decreases |items|
  {
    if items == [] then []
    else
      (match items[0].entry
       case Record(f) => Field(f, "stakeholders") + " "
       case Scalar => "") + StakeholderText(items[1..])
  }

  const RaciLetters: seq<char> := ['R', 'A', 'C', 'I']

  /** A letter occurs in the joined text exactly when some record's stakeholder field holds it. */
  lemma {:induction false} StakeholderLetter(items: seq<Item>, x: char)
    requires x != ' '
    ensures x in StakeholderText(items) <==>
              exists i | 0 <= i < |items| :: items[i].entry.Record? && x in Field(items[i].entry.fields, "stakeholders")
    decreases |items|
  {
    if items != [] {
      StakeholderLetter(items[1..], x);
      assert forall i | 1 <= i < |items| :: items[i] == items[1..][i - 1];
    }
  }

  /** The RACI letters that appear in no stakeholder field, in R, A, C, I order. */
  function RaciMissingLetters(items: seq<Item>): seq<char> {
    Filter(RaciLetters, x => x !in StakeholderText(items))
  }

  // ---------------------------------------------------------------------------
  // Phases without extracted terms

  /** `phase.get('phase_name', key)`. */
  function PhaseName(key: string, f: Fields): string {
    if "phase_name" in f then f["phase_name"] else key
  }

  /** The names of the records whose rendering mentions no extracted term, in table order. */
  function TermlessPhases(items: seq<Item>, terms: seq<string>, render: Fields -> string): seq<string>
    decreases |items|
  {
    if items == [] then []
    else
      (match items[0].entry
       case Record(f) => if SumCounts(Lower(render(f)), terms) == 0 then [PhaseName(items[0].key, f)] else []
       case Scalar => []) + TermlessPhases(items[1..], terms, render)
  }

  /** Every listed name belongs to a record whose rendering contains none of the terms. */
  lemma {:induction false} TermlessPhasesSound(items: seq<Item>, terms: seq<string>, render: Fields -> string, name: string)
    requires name in TermlessPhases(items, terms, render)
    ensures exists i | 0 <= i < |items| :: items[i].entry.Record?
              && name == PhaseName(items[i].key, items[i].entry.fields)
              && forall k | 0 <= k < |terms| :: !Contains(Lower(render(items[i].entry.fields)), Lower(terms[k]))
    decreases |items|
  {
    var head := match items[0].entry
      case Record(f) => if SumCounts(Lower(render(f)), terms) == 0 then [PhaseName(items[0].key, f)] else []
      case Scalar => [];
    if name in head {
      SumCountsZero(Lower(render(items[0].entry.fields)), terms);
    } else {
      TermlessPhasesSound(items[1..], terms, render, name);
      var i :| 0 <= i < |items[1..]| && items[1..][i].entry.Record?
               && name == PhaseName(items[1..][i].key, items[1..][i].entry.fields)
               && forall k | 0 <= k < |terms| :: !Contains(Lower(render(items[1..][i].entry.fields)), Lower(terms[k]));
      assert items[i + 1] == items[1..][i];
    }
  }

  /** Every record whose rendering contains none of the terms is listed. */
  lemma {:induction false} TermlessPhasesComplete(items: seq<Item>, terms: seq<string>, render: Fields -> string, i: int)
    requires 0 <= i < |items| && items[i].entry.Record?
    requires forall k | 0 <= k < |terms| :: !Contains(Lower(render(items[i].entry.fields)), Lower(terms[k]))
    ensures PhaseName(items[i].key, items[i].entry.fields) in TermlessPhases(items, terms, render)
    decreases |items|
  {
    if i == 0 {
      SumCountsZero(Lower(render(items[0].entry.fields)), terms);
    } else {
      assert items[1..][i - 1] == items[i];
      TermlessPhasesComplete(items[1..], terms, render, i - 1);
    }
  }

  // ---------------------------------------------------------------------------
  // The verdict

  const SpecificRatioMin: nat := 3
  const GenericRatioMax: nat := 20
  const SpecificCountMin: nat := 10
  const CoverageMin: real := 0.5

  /**
   The metrics of a table. `tableText` is the indented JSON rendering of the
   whole table, `render` the compact rendering of one record, `stages` the
   profile's scale stages (empty without a profile).
   */
  function Measure(info: Info, t: Table, tableText: string, render: Fields -> string, stages: seq<string>): Metrics {
    var low := Lower(tableText);
    var terms := AllTerms(info, AllCategories);
    var specific := SumCounts(low, terms);
    var generic := GenericCount(low, GenericWords);
    var words := |Split(tableText)|;
    Metrics(specific, generic, words, Ratio(specific, words), Ratio(generic, words),
            CoverageMap(info, low), WeightedCoverage(info, AllCategories, low),
            if stages == [] then None else Some(ScaleWalk(stages, tableText, -1)),
            RaciMissingLetters(t.items), TermlessPhases(t.items, terms, render), MissingCategories(info, low))
  }

  /** `x` in front of `rest` when the check fires. */
  function Raise(fires: bool, x: Issue, rest: seq<Issue>): (r: seq<Issue>)
    ensures forall y :: y in r <==> (fires && y == x) || y in rest
    ensures r == [] <==> !fires && rest == []
  {
    if fires then [x] + rest else rest
  }

  /** The last three checks, whose issues carry what they found. */
  function PayloadIssues(m: Metrics): seq<Issue> {
    Raise(m.raciMissing != [], RaciMissing(m.raciMissing),
    Raise(m.phasesWithoutTerms != [], PhasesWithoutTerms(m.phasesWithoutTerms),
    Raise(m.missingCategories != [], UnreflectedCategories(m.missingCategories), [])))
  }

  /** The issues the metrics raise, in the order the checks run. */
  function Assess(m: Metrics): seq<Issue> {
    Raise(m.specificRatio < SpecificRatioMin as real, LowSpecificRatio,
    Raise(m.genericRatio > GenericRatioMax as real, HighGenericRatio,
    Raise(m.specificCount < SpecificCountMin, FewSpecificTerms,
    Raise(m.weightedCoverage < CoverageMin, LowCoverage,
    Raise(m.scaleOrderOk == Some(false), ScaleOrderBroken, PayloadIssues(m))))))
  }

  /** `validate_job_specificity`: the guard, then the metrics and their issues. */
  function Validate(info: Info, t: Table, tableText: string, render: Fields -> string, stages: seq<string>): Verdict {
    if |info| == 0 || t.items == [] then Verdict(false, [MissingInput], None)
    else
      var m := Measure(info, t, tableText, render, stages);
      var errors := Assess(m);
      Verdict(errors == [], errors, Some(m))
  }

  // ---------------------------------------------------------------------------
  // What the verdict means

  /** The table passes exactly when no check raises an issue; the guard is never raised by a check. */
  lemma AssessNoGuard(m: Metrics)
    ensures MissingInput !in Assess(m)
    ensures Assess(m) == [] <==>
              m.specificRatio >= SpecificRatioMin as real && m.genericRatio <= GenericRatioMax as real
              && m.specificCount >= SpecificCountMin && m.weightedCoverage >= CoverageMin
              && m.scaleOrderOk != Some(false) && m.raciMissing == [] && m.phasesWithoutTerms == [] && m.missingCategories == []
  {
  }

  /** Which issue is raised by which metric. */
  lemma AssessIssues(m: Metrics)
    ensures LowSpecificRatio in Assess(m) <==> m.specificRatio < SpecificRatioMin as real
    ensures HighGenericRatio in Assess(m) <==> m.genericRatio > GenericRatioMax as real
    ensures FewSpecificTerms in Assess(m) <==> m.specificCount < SpecificCountMin
    ensures LowCoverage in Assess(m) <==> m.weightedCoverage < CoverageMin
    ensures ScaleOrderBroken in Assess(m) <==> m.scaleOrderOk == Some(false)
  {
    AssessThreshold(m, LowSpecificRatio);
    AssessThreshold(m, HighGenericRatio);
    AssessThreshold(m, FewSpecificTerms);
    AssessThreshold(m, LowCoverage);
    AssessThreshold(m, ScaleOrderBroken);
  }

  /** The position of an issue's check in the fixed check order; the guard comes after all of them. */
  function Rank(x: Issue): nat {
    match x
    case LowSpecificRatio => 0
    case HighGenericRatio => 1
    case FewSpecificTerms => 2
    case LowCoverage => 3
    case ScaleOrderBroken => 4
    case RaciMissing(_) => 5
    case PhasesWithoutTerms(_) => 6
    case UnreflectedCategories(_) => 7
    case MissingInput => 8
  }

  /** The issues appear in check order, each at most once. */
  ghost predicate InCheckOrder(s: seq<Issue>) {
    forall i, j | 0 <= i < j < |s| :: Rank(s[i]) < Rank(s[j])
  }

  ghost predicate RankedFrom(s: seq<Issue>, k: nat) {
    forall y | y in s :: k <= Rank(y)
  }

  lemma RaiseInOrder(fires: bool, x: Issue, rest: seq<Issue>, k: nat)
    requires InCheckOrder(rest) && RankedFrom(rest, k) && Rank(x) < k
    ensures InCheckOrder(Raise(fires, x, rest)) && RankedFrom(Raise(fires, x, rest), Rank(x))
  {
    if fires {
      var r := [x] + rest;
      forall i, j | 0 <= i < j < |r| ensures Rank(r[i]) < Rank(r[j]) {
        assert r[j] == rest[j - 1];
        if i > 0 {
          assert r[i] == rest[i - 1];
        }
      }
    }
  }

  /**
   The issues come out in the order the checks run: specific ratio, generic
   ratio, specific count, coverage, scale order, RACI, termless phases,
   unreflected categories.
   */
  lemma AssessInOrder(m: Metrics)
    ensures InCheckOrder(Assess(m))
  {
    var r4 := Raise(m.scaleOrderOk == Some(false), ScaleOrderBroken, PayloadIssues(m));
    var r3 := Raise(m.weightedCoverage < CoverageMin, LowCoverage, r4);
    var r2 := Raise(m.specificCount < SpecificCountMin, FewSpecificTerms, r3);
    var r1 := Raise(m.genericRatio > GenericRatioMax as real, HighGenericRatio, r2);
    PayloadInOrder(m);
    RaiseInOrder(m.scaleOrderOk == Some(false), ScaleOrderBroken, PayloadIssues(m), 5);
    RaiseInOrder(m.weightedCoverage < CoverageMin, LowCoverage, r4, 4);
    RaiseInOrder(m.specificCount < SpecificCountMin, FewSpecificTerms, r3, 3);
    RaiseInOrder(m.genericRatio > GenericRatioMax as real, HighGenericRatio, r2, 2);
    RaiseInOrder(m.specificRatio < SpecificRatioMin as real, LowSpecificRatio, r1, 1);
  }

  lemma PayloadInOrder(m: Metrics)
    ensures InCheckOrder(PayloadIssues(m)) && RankedFrom(PayloadIssues(m), 5)
  {
    var r7 := Raise(m.missingCategories != [], UnreflectedCategories(m.missingCategories), []);
    var r6 := Raise(m.phasesWithoutTerms != [], PhasesWithoutTerms(m.phasesWithoutTerms), r7);
    RaiseInOrder(m.missingCategories != [], UnreflectedCategories(m.missingCategories), [], 8);
    RaiseInOrder(m.phasesWithoutTerms != [], PhasesWithoutTerms(m.phasesWithoutTerms), r7, 7);
    RaiseInOrder(m.raciMissing != [], RaciMissing(m.raciMissing), r6, 6);
  }

  /** The condition under which a check without a payload fires. */
  predicate Crossed(m: Metrics, x: Issue) {
    match x
    case LowSpecificRatio => m.specificRatio < SpecificRatioMin as real
    case HighGenericRatio => m.genericRatio > GenericRatioMax as real
    case FewSpecificTerms => m.specificCount < SpecificCountMin
    case LowCoverage => m.weightedCoverage < CoverageMin
    case ScaleOrderBroken => m.scaleOrderOk == Some(false)
    case _ => false
  }

  lemma AssessThreshold(m: Metrics, x: Issue)
    requires x.LowSpecificRatio? || x.HighGenericRatio? || x.FewSpecificTerms? || x.LowCoverage? || x.ScaleOrderBroken?
    ensures x in Assess(m) <==> Crossed(m, x)
  {
  }

  /** The input guard fires exactly when the extracted information or the table is empty. */
  lemma ValidateGuard(info: Info, t: Table, tableText: string, render: Fields -> string, stages: seq<string>)
    ensures var v := Validate(info, t, tableText, render, stages);
            (v.metrics.None? <==> |info| == 0 || t.items == [])
            && (MissingInput in v.errors <==> |info| == 0 || t.items == [])
            && (v.passed <==> v.errors == [])
  {
    if |info| > 0 && t.items != [] {
      AssessNoGuard(Measure(info, t, tableText, render, stages));
    }
  }

  /** Each numeric issue is reported exactly when its threshold is crossed, stated on integers. */
  lemma ValidateThresholds(info: Info, t: Table, tableText: string, render: Fields -> string, stages: seq<string>)
    requires |info| > 0 && t.items != []
    ensures var v := Validate(info, t, tableText, render, stages);
            var specific := SumCounts(Lower(tableText), AllTerms(info, AllCategories));
            var words := Max(|Split(tableText)|, 1);
            (LowSpecificRatio in v.errors <==> 100 * specific < 3 * words)
            && (HighGenericRatio in v.errors <==> 5 * GenericCount(Lower(tableText), GenericWords) > words)
            && (FewSpecificTerms in v.errors <==> specific < 10)
            && (LowCoverage in v.errors <==> WeightedCoverage(info, AllCategories, Lower(tableText)) < 0.5)
  {
    var m := Measure(info, t, tableText, render, stages);
    assert Validate(info, t, tableText, render, stages).errors == Assess(m);
    AssessIssues(m);
    RatioCompare(m.specificCount, m.totalWords, SpecificRatioMin);
    RatioCompare(m.genericCount, m.totalWords, GenericRatioMax);
  }

  /** The stage order is reported only with stages, and exactly when the found positions go down. */
  lemma ValidateScale(info: Info, t: Table, tableText: string, render: Fields -> string, stages: seq<string>)
    requires |info| > 0 && t.items != []
    ensures ScaleOrderBroken in Validate(info, t, tableText, render, stages).errors <==>
              stages != [] && !Ascending(FoundPositions(stages, tableText))
  {
    var m := Measure(info, t, tableText, render, stages);
    assert Validate(info, t, tableText, render, stages).errors == Assess(m);
    AssessIssues(m);
    ScaleOrderIffAscending(stages, tableText);
  }

  /** A RACI letter is reported missing exactly when no record's stakeholder field holds it. */
  lemma ValidateRaci(info: Info, t: Table, tableText: string, render: Fields -> string, stages: seq<string>, x: char)
    requires |info| > 0 && t.items != []
    requires x in RaciLetters
    ensures x in Validate(info, t, tableText, render, stages).metrics.value.raciMissing <==>
              !exists i | 0 <= i < |t.items| :: t.items[i].entry.Record? && x in Field(t.items[i].entry.fields, "stakeholders")
  {
    assert Validate(info, t, tableText, render, stages).metrics.value.raciMissing == RaciMissingLetters(t.items);
    RaciMissingIff(t.items, x);
  }

  lemma RaciMissingIff(items: seq<Item>, x: char)
    requires x in RaciLetters
    ensures x in RaciMissingLetters(items) <==>
              !exists i | 0 <= i < |items| :: items[i].entry.Record? && x in Field(items[i].entry.fields, "stakeholders")
  {
    StakeholderLetter(items, x);
    FilterFacts(RaciLetters, y => y !in StakeholderText(items));
  }

  /**
   A category is reported unreflected exactly when it is an input key and no
   term of its reference subset occurs; a key with an empty list is therefore
   always reported, although the coverage skips it.
   */
  lemma ValidateCategories(info: Info, t: Table, tableText: string, render: Fields -> string, stages: seq<string>, c: Category)
    requires |info| > 0 && t.items != []
    ensures var m := Validate(info, t, tableText, render, stages).metrics.value;
            (c in m.missingCategories <==>
               c in info && forall k | 0 <= k < |RepTerms(info, c)| :: !Contains(Lower(tableText), Lower(RepTerms(info, c)[k])))
            && (c in info && info[c] == [] ==> c in m.missingCategories && c !in m.coverage)
  {
    var low := Lower(tableText);
    MissingCategoriesIff(info, low, c);
    SumCountsZero(low, RepTerms(info, c));
  }

  lemma MissingCategoriesIff(info: Info, lowText: string, c: Category)
    ensures c in MissingCategories(info, lowText) <==> c in info && SumCounts(lowText, RepTerms(info, c)) == 0
  {
    FilterFacts(AllCategories, d => d in info && SumCounts(lowText, RepTerms(info, d)) == 0);
    CategoryListed(c);
  }
}
