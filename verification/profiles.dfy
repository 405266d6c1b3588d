/**
 Choosing the domain profile for an industry and a job title. The two are
 joined with a space and lower-cased, and keyword tests on that text pick
 one of four specialised profiles, in a fixed order of precedence, or the
 generic manufacturing profile. Every profile carries the shared
 category/phase affinity map; only the three battery and motor profiles
 find search hints in the hint tables.
 */
module Profiles {
  import opened Wrappers
  import opened Text
  import opened Domain

  datatype ProfileKind = EvMaterials | BatteryCell | MotorDesign | ProductionEngineering | GenericManufacturing

  datatype Profile = Profile(
    kind: ProfileKind,
    name: string,
    industry: string,
    role: string,
    coreTerms: seq<string>,
    scaleStages: seq<string>,
    affinity: AffinityMap,
    hintKey: Option<string>)

  /** Some keyword occurs in the text (`any(k in text for k in words)`). */
  predicate AnyIn(words: seq<string>, text: string) {
    exists i | 0 <= i < |words| :: Contains(text, words[i])
  }

  const EvWords: seq<string> := ["ev", "battery", "電池"]
  const MaterialWords: seq<string> := ["材料", "material"]
  const CellWords: seq<string> := ["cell", "セル"]
  const CellRoleWords: seq<string> := ["開発", "設計", "engineer"]
  const MotorWords: seq<string> := ["motor", "モーター", "eモーター"]
  const MotorRoleWords: seq<string> := ["設計", "開発", "engineer"]
  const ProductionWords: seq<string> := ["生産技術", "production engineering", "manufacturing engineering"]

  predicate EvTest(text: string) { AnyIn(EvWords, text) && AnyIn(MaterialWords, text) }
  predicate CellTest(text: string) { AnyIn(CellWords, text) && AnyIn(CellRoleWords, text) }
  predicate MotorTest(text: string) { AnyIn(MotorWords, text) && AnyIn(MotorRoleWords, text) }
  predicate ProductionTest(text: string) { AnyIn(ProductionWords, text) }

  /** The first test that passes decides the profile. */
  function Classify(text: string): ProfileKind {
    if EvTest(text) then EvMaterials
    else if CellTest(text) then BatteryCell
    else if MotorTest(text) then MotorDesign
    else if ProductionTest(text) then ProductionEngineering
    else GenericManufacturing
  }

  /** The text the tests read: `f"{industry} {job_title}".lower()`. */
  function ClassifierText(industry: string, jobTitle: string): string {
    Lower(industry + " " + jobTitle)
  }

  function KindName(k: ProfileKind): string {
    match k
    case EvMaterials => "EV材料開発"
    case BatteryCell => "電池セル開発"
    case MotorDesign => "モーター設計"
    case ProductionEngineering => "生産技術"
    case GenericManufacturing => "汎用製造技術職"
  }

  function CoreTerms(k: ProfileKind): seq<string> {
    match k
    case EvMaterials => ["NCM811", "LFP", "NCA", "SEI", "LiPF6", "セパレータ", "スラリー", "焼結", "混練"]
    case BatteryCell => ["正極活物質", "負極活物質", "セパレータ", "電解液", "セルスタック", "エネルギー密度", "サイクル寿命"]
    case MotorDesign => ["ステータ", "ロータ", "磁石材", "トルク定数", "効率マップ", "NVH", "コギングトルク"]
    case ProductionEngineering => ["ラインバランシング", "タクトタイム", "OEE", "歩留まり", "設備保全", "SMED"]
    case GenericManufacturing => ["工程設計", "品質管理", "歩留まり", "設備保全"]
  }

  function ScaleStages(k: ProfileKind): seq<string> {
    match k
    case MotorDesign => ["設計", "試作", "耐久試験", "量産"]
    case ProductionEngineering => ["ラボ", "試作ライン", "量産ライン"]
    case _ => ["ラボ", "パイロット", "量産"]
  }

  /**
   The key passed when the shared parts are attached: the profile's own
   name, except for production engineering, which passes none.
   */
  function AttachKey(k: ProfileKind): Option<string> {
    if k == ProductionEngineering then None else Some(KindName(k))
  }

  /** The keys of the search-scope, hint and domain-KPI tables. */
  const HintTableKeys: set<string> := {"EV材料開発", "電池セル開発", "モーター設計"}

  /** Whether the attached search scope, hints and domain KPIs come from the tables (otherwise they are empty). */
  predicate HasHints(p: Profile) {
    p.hintKey.Some? && p.hintKey.value in HintTableKeys
  }

  /** `get_domain_profile`. */
  function GetDomainProfile(industry: string, jobTitle: string): (p: Profile)
    ensures p.industry == industry && p.role == jobTitle
    ensures p.affinity == PhaseAffinityMap
    ensures p.name == KindName(p.kind)
    ensures p.kind == Classify(ClassifierText(industry, jobTitle))
  {
    var k := Classify(ClassifierText(industry, jobTitle));
    Profile(k, KindName(k), industry, jobTitle, CoreTerms(k), ScaleStages(k), PhaseAffinityMap, AttachKey(k))
  }

  // ---------------------------------------------------------------------------
  // Properties

  /**
   The order of precedence: each profile is chosen exactly when its own
   test passes and every earlier test fails.
   */
  lemma ClassifyPrecedence(text: string)
    ensures Classify(text) == EvMaterials <==> EvTest(text)
    ensures Classify(text) == BatteryCell <==> !EvTest(text) && CellTest(text)
    ensures Classify(text) == MotorDesign <==> !EvTest(text) && !CellTest(text) && MotorTest(text)
    ensures Classify(text) == ProductionEngineering
            <==> !EvTest(text) && !CellTest(text) && !MotorTest(text) && ProductionTest(text)
    ensures Classify(text) == GenericManufacturing
            <==> !EvTest(text) && !CellTest(text) && !MotorTest(text) && !ProductionTest(text)
  {
  }

  /** Search hints are attached to exactly the battery-material, battery-cell and motor profiles. */
  lemma HintsIff(industry: string, jobTitle: string)
    ensures var p := GetDomainProfile(industry, jobTitle);
            HasHints(p) <==> p.kind in {EvMaterials, BatteryCell, MotorDesign}
  {
    var p := GetDomainProfile(industry, jobTitle);
    assert p.hintKey == AttachKey(p.kind);
  }

  lemma LowerCharIdempotent(c: char)
    ensures LowerChar(LowerChar(c)) == LowerChar(c)
  {
  }

  lemma LowerIdempotent(s: string)
    ensures Lower(Lower(s)) == Lower(s)
  {
    forall i | 0 <= i < |s| ensures Lower(Lower(s))[i] == Lower(s)[i] {
      LowerCharIdempotent(s[i]);
    }
  }

  lemma LowerAppend(a: string, b: string)
    ensures Lower(a + b) == Lower(a) + Lower(b)
  {
  }

  /** The choice ignores letter case: lower-casing the inputs first picks the same profile. */
  lemma CaseInsensitive(industry: string, jobTitle: string)
    ensures GetDomainProfile(Lower(industry), Lower(jobTitle)).kind == GetDomainProfile(industry, jobTitle).kind
  {
    var joined := industry + " " + jobTitle;
    LowerAppend(industry + " ", jobTitle);
    LowerAppend(industry, " ");
    LowerAppend(Lower(industry) + " ", Lower(jobTitle));
    LowerAppend(Lower(industry), " ");
    assert Lower(" ") == " ";
    assert Lower(Lower(industry) + " " + Lower(jobTitle)) == Lower(Lower(joined));
    LowerIdempotent(joined);
  }

  /** No keyword can occur when each starts with a character the text lacks. */
  lemma NoneIn(words: seq<string>, text: string)
    requires forall i | 0 <= i < |words| :: words[i] != [] && words[i][0] !in text
    ensures !AnyIn(words, text)
  {
    forall i | 0 <= i < |words| ensures !Contains(text, words[i]) {
      NotContains(text, words[i]);
    }
  }

  /** A keyword that appears as a piece of the text is found. */
  lemma FoundIn(words: seq<string>, i: int, a: string, b: string, text: string)
    requires 0 <= i < |words| && text == a + words[i] + b
    ensures AnyIn(words, text)
  {
    ContainsInfix(a, words[i], b);
  }

  lemma EvMaterialsText(text: string)
    requires text == "ev 材料開発"
    ensures Classify(text) == EvMaterials
  {
    FoundIn(EvWords, 0, "", " 材料開発", text);
    FoundIn(MaterialWords, 0, "ev ", "開発", text);
  }

  /** An upper-case "EV" industry with a materials job title picks the battery-materials profile. */
  lemma EvMaterialsExample(industry: string, jobTitle: string)
    requires industry == "EV" && jobTitle == "材料開発"
    ensures GetDomainProfile(industry, jobTitle).kind == EvMaterials
  {
    assert ClassifierText(industry, jobTitle) == "ev 材料開発";
    EvMaterialsText(ClassifierText(industry, jobTitle));
  }

  lemma DeviceMaterialsText(text: string)
    requires text == "半導体 device material"
    ensures Classify(text) == EvMaterials
  {
    FoundIn(EvWords, 0, "半導体 d", "ice material", text);
    FoundIn(MaterialWords, 1, "半導体 device ", "", text);
  }

  /**
   The keyword test is a substring test: "ev" inside "device" is enough, so
   a device-materials title also picks the battery-materials profile.
   */
  lemma DeviceMaterialsIsEv(industry: string, jobTitle: string)
    requires industry == "半導体" && jobTitle == "device material"
    ensures GetDomainProfile(industry, jobTitle).kind == EvMaterials
  {
    assert ClassifierText(industry, jobTitle) == "半導体 device material";
    DeviceMaterialsText(ClassifierText(industry, jobTitle));
  }

  lemma BatteryCellText(text: string)
    requires text == "自動車 セル開発"
    ensures Classify(text) == BatteryCell
  {
    assert !AnyIn(EvWords, text) by { NoneIn(EvWords, text); }
    FoundIn(CellWords, 1, "自動車 ", "開発", text);
    FoundIn(CellRoleWords, 0, "自動車 セル", "", text);
  }

  /** A battery-cell development title picks the cell profile. */
  lemma BatteryCellExample(industry: string, jobTitle: string)
    requires industry == "自動車" && jobTitle == "セル開発"
    ensures GetDomainProfile(industry, jobTitle).kind == BatteryCell
  {
    assert ClassifierText(industry, jobTitle) == "自動車 セル開発";
    BatteryCellText(ClassifierText(industry, jobTitle));
  }

  lemma MotorDesignText(text: string)
    requires text == "自動車 モーター設計"
    ensures Classify(text) == MotorDesign
  {
    assert !AnyIn(EvWords, text) by { NoneIn(EvWords, text); }
    assert !AnyIn(CellWords, text) by { NoneIn(CellWords, text); }
    FoundIn(MotorWords, 1, "自動車 ", "設計", text);
    FoundIn(MotorRoleWords, 0, "自動車 モーター", "", text);
  }

  /** A motor design title picks the motor profile. */
  lemma MotorDesignExample(industry: string, jobTitle: string)
    requires industry == "自動車" && jobTitle == "モーター設計"
    ensures GetDomainProfile(industry, jobTitle).kind == MotorDesign
  {
    assert ClassifierText(industry, jobTitle) == "自動車 モーター設計";
    MotorDesignText(ClassifierText(industry, jobTitle));
  }

  lemma ProductionText(text: string)
    requires text == "製造業 生産技術"
    ensures Classify(text) == ProductionEngineering
  {
    assert !AnyIn(EvWords, text) by { NoneIn(EvWords, text); }
    assert !AnyIn(CellWords, text) by { NoneIn(CellWords, text); }
    assert !AnyIn(MotorWords, text) by { NoneIn(MotorWords, text); }
    FoundIn(ProductionWords, 0, "製造業 ", "", text);
  }

  /** A production-engineering title picks the production profile, which carries no hints. */
  lemma ProductionExample(industry: string, jobTitle: string)
    requires industry == "製造業" && jobTitle == "生産技術"
    ensures GetDomainProfile(industry, jobTitle).kind == ProductionEngineering
    ensures !HasHints(GetDomainProfile(industry, jobTitle))
  {
    assert ClassifierText(industry, jobTitle) == "製造業 生産技術";
    ProductionText(ClassifierText(industry, jobTitle));
    HintsIff(industry, jobTitle);
  }

  lemma GenericText(text: string)
    requires text == "食品 品質管理"
    ensures Classify(text) == GenericManufacturing
  {
    assert !AnyIn(EvWords, text) by { NoneIn(EvWords, text); }
    assert !AnyIn(CellWords, text) by { NoneIn(CellWords, text); }
    assert !AnyIn(MotorWords, text) by { NoneIn(MotorWords, text); }
    assert !AnyIn(ProductionWords, text) by { NoneIn(ProductionWords, text); }
  }

  /** Anything else falls back to the generic manufacturing profile, whose key has no hint entry. */
  lemma GenericExample(industry: string, jobTitle: string)
    requires industry == "食品" && jobTitle == "品質管理"
    ensures GetDomainProfile(industry, jobTitle).kind == GenericManufacturing
    ensures !HasHints(GetDomainProfile(industry, jobTitle))
  {
    assert ClassifierText(industry, jobTitle) == "食品 品質管理";
    GenericText(ClassifierText(industry, jobTitle));
    HintsIff(industry, jobTitle);
  }
}
