/**
 The category filter applied to extracted terms: organisation names are
 dropped (for stakeholders, replaced by the first role word they contain),
 each category keeps only items matching its allow-list, and one-character
 items are dropped.

 Every pattern of the tables is either a literal substring (an optional
 trailing `\.?` does not change whether a pattern occurs) or a literal
 prefix followed by one character of a class (`NCM[0-9]+`, `Li[A-Za-z0-9]+`,
 `IEC[0-9]+`, `AEC-Q[0-9]+`: one class character suffices for a match).
 */
module Patterns {
  import opened Wrappers
  import opened Text
  import opened Seqs
  import opened Domain

  datatype CharClass = Digit | AsciiAlnum

  datatype Pattern = Lit(text: string) | PrefixThen(prefix: string, cls: CharClass)

  predicate InClass(c: char, cls: CharClass) {
    match cls
    case Digit => '0' <= c <= '9'
    case AsciiAlnum => 'A' <= c <= 'Z' || 'a' <= c <= 'z' || '0' <= c <= '9'
  }

  /** Some offset of `s` starts with `prefix` followed by a character of the class. */
  predicate PrefixThenIn(s: string, prefix: string, cls: CharClass)
    decreases |s|
  {
    (prefix <= s && |prefix| < |s| && InClass(s[|prefix|], cls)) || (s != [] && PrefixThenIn(s[1..], prefix, cls))
  }

  /** `re.search(p, s)` for the two pattern shapes. */
  predicate Matches(p: Pattern, s: string) {
    match p
    case Lit(t) => Contains(s, t)
    case PrefixThen(pre, cls) => PrefixThenIn(s, pre, cls)
  }

  predicate MatchesAny(ps: seq<Pattern>, s: string) {
    exists i | 0 <= i < |ps| :: Matches(ps[i], s)
  }

  /** Organisation markers: a stakeholder naming an organisation is not a role. */
  const Exclusions: seq<Pattern> := [
    Lit("株式会社"), Lit("有限会社"), Lit("合同会社"), Lit("一般社団法人"), Lit("一般財団法人"), Lit("国立研究開発法人"),
    Lit("独立行政法人"), Lit("大学"), Lit("研究所"), Lit("センター"), Lit("協会"), Lit("学会"), Lit("連盟"), Lit("組合"),
    Lit("省"), Lit("庁"), Lit("委員会"), Lit("Inc"), Lit("Corp"), Lit("Ltd"), Lit("LLC"), Lit("Co."), Lit("University"),
    Lit("Institute"), Lit("Association"), Lit("Society")
  ]

  /** Role words that replace an organisation name among the stakeholders. */
  const Roles: seq<string> := ["OEM", "品質保証", "製造技術", "開発部門", "エンジニア", "担当", "部門", "チーム"]

  function AllowedPatterns(c: Category): seq<Pattern> {
    match c
    case MaterialsOrProducts =>
      [PrefixThen("NCM", Digit), Lit("LFP"), Lit("NCA"), Lit("LiPF6"), PrefixThen("Li", AsciiAlnum),
       Lit("セパレータ"), Lit("バインダー"), Lit("スラリー"), Lit("焼結"), Lit("混練")]
    case ToolsAndEquipment =>
      [Lit("XRD"), Lit("SEM"), Lit("EDS"), Lit("AFM"), Lit("VSM"), Lit("JMP"), Lit("Minitab"), Lit("CAD"), Lit("CAE"),
       Lit("FEA"), Lit("LCR")]
    case Processes =>
      [Lit("混練"), Lit("スラリー"), Lit("塗工"), Lit("乾燥"), Lit("焼結"), Lit("DOE"), Lit("フォーメーション"), Lit("化成")]
    case IndustrySpecificKpi =>
      [Lit("エネルギー密度"), Lit("サイクル寿命"), Lit("内部抵抗"), Lit("Wh/kg"), Lit("Ah"), Lit("歩留まり")]
    case ConstraintsOrRegulations =>
      [Lit("UN38.3"), PrefixThen("IEC", Digit), PrefixThen("AEC-Q", Digit), Lit("RoHS"), Lit("REACH"), Lit("JIS"),
       Lit("ISO"), Lit("規格")]
    case CommonFailures =>
      [Lit("劣化"), Lit("膨張"), Lit("短絡"), Lit("熱暴走"), Lit("SEI"), Lit("デンドライト"), Lit("ガス")]
    case Stakeholders =>
      [Lit("OEM"), Lit("品質保証"), Lit("製造技術"), Lit("開発部門"), Lit("プロセスエンジニア"), Lit("法務"), Lit("環境安全")]
    case Deliverables =>
      [Lit("仕様書"), Lit("計画書"), Lit("レポート"), Lit("要件仕様"), Lit("評価レポート"), Lit("試験レポート")]
  }

  /** The category whose dictionary key is `key`, if any. */
  function CategoryNamed(key: string): (r: Option<Category>)
    ensures r.Some? ==> r.value.Key() == key
  {
    if key == "materials_or_products" then Some(MaterialsOrProducts)
    else if key == "tools_and_equipment" then Some(ToolsAndEquipment)
    else if key == "processes" then Some(Processes)
    else if key == "industry_specific_kpi" then Some(IndustrySpecificKpi)
    else if key == "constraints_or_regulations" then Some(ConstraintsOrRegulations)
    else if key == "common_failures" then Some(CommonFailures)
    else if key == "stakeholders" then Some(Stakeholders)
    else if key == "deliverables" then Some(Deliverables)
    else None
  }

  /** `ALLOWED_CATEGORY_PATTERNS.get(key, [])`. */
  function AllowedFor(key: string): seq<Pattern> {
    match CategoryNamed(key)
    case Some(c) => AllowedPatterns(c)
    case None => []
  }

  /** The first role word that occurs in `it`: no earlier role word occurs. */
  function FirstRole(roles: seq<string>, it: string): (r: Option<string>)
    ensures r.Some? ==> r.value in roles && Contains(it, r.value)
    ensures r.Some? ==> exists k | 0 <= k < |roles| :: roles[k] == r.value && forall j | 0 <= j < k :: !Contains(it, roles[j])
    ensures r.None? <==> forall i | 0 <= i < |roles| :: !Contains(it, roles[i])
    decreases |roles|
  {
    if roles == [] then None
    else if Contains(it, roles[0]) then Some(roles[0])
    else
      var r := FirstRole(roles[1..], it);
      assert forall i | 1 <= i < |roles| :: roles[i] == roles[1..][i - 1];
      r
  }

  /** The fate of one item: dropped, kept, or (stakeholders only) replaced by a role word. */
  function FilterItem(key: string, it: string): Option<string> {
    if MatchesAny(Exclusions, it) then
      if key == "stakeholders" then FirstRole(Roles, it) else None
    else if AllowedFor(key) != [] && !MatchesAny(AllowedFor(key), it) then None
    else if |it| < 2 then None
    else Some(it)
  }

  /** `filter_category_items`. */
  function FilterCategoryItems(key: string, items: seq<string>): seq<string>
    decreases |items|
  {
    if items == [] then []
    else
      (match FilterItem(key, items[0]) case Some(x) => [x] case None => []) + FilterCategoryItems(key, items[1..])
  }

  // ---------------------------------------------------------------------------
  // Properties

  /** None of the literal patterns can occur: each is too long or starts with a character `s` lacks. */
  lemma NoneOccur(ps: seq<Pattern>, s: string)
    requires forall j | 0 <= j < |ps| :: ps[j].Lit? && (|ps[j].text| > |s| || (ps[j].text != [] && ps[j].text[0] !in s))
    ensures !MatchesAny(ps, s)
  {
    forall j | 0 <= j < |ps| ensures !Matches(ps[j], s) {
      NotContains(s, ps[j].text);
    }
  }

  /** The first characters of the exclusion markers. */
  const ExclusionHeads: set<char> := {
    '株', '有', '合', '一', '国', '独', '大', '研', 'セ', '協', '学', '連', '組', '省', '庁', '委',
    'I', 'C', 'L', 'U', 'A', 'S'
  }

  /** A text none of whose characters starts an exclusion marker names no organisation. */
  lemma AvoidsExclusions(s: string)
    requires forall k | 0 <= k < |s| :: s[k] !in ExclusionHeads
    ensures !MatchesAny(Exclusions, s)
  {
    assert forall j | 0 <= j < |Exclusions| :: Exclusions[j].Lit? && Exclusions[j].text != [] && Exclusions[j].text[0] in ExclusionHeads;
    NoneOccur(Exclusions, s);
  }

  /** Every role word is at least two characters long and names no organisation. */
  lemma RolesClean(r: string)
    requires r in Roles
    ensures |r| >= 2 && !MatchesAny(Exclusions, r)
  {
    AvoidsExclusions(r);
  }

  /**
   What happens to one item: a kept item is the item itself, names no
   organisation and matches the allow-list when there is one; a replaced
   item is a role word occurring in a stakeholder item that names an
   organisation. Either way the result has at least two characters and
   names no organisation.
   */
  lemma FilterItemFacts(key: string, it: string)
    ensures var r := FilterItem(key, it);
            r.Some? ==> |r.value| >= 2 && !MatchesAny(Exclusions, r.value)
                        && ((r.value == it && (AllowedFor(key) == [] || MatchesAny(AllowedFor(key), it)))
                            || (&& key == "stakeholders" && MatchesAny(Exclusions, it) && r.value in Roles && Contains(it, r.value)
                                && exists k | 0 <= k < |Roles| :: Roles[k] == r.value && forall j | 0 <= j < k :: !Contains(it, Roles[j])))
    ensures !MatchesAny(Exclusions, it) && (AllowedFor(key) == [] || MatchesAny(AllowedFor(key), it)) && |it| >= 2
            ==> FilterItem(key, it) == Some(it)
    ensures MatchesAny(Exclusions, it) && key != "stakeholders" ==> FilterItem(key, it).None?
  {
    var r := FilterItem(key, it);
    if r.Some? && MatchesAny(Exclusions, it) {
      RolesClean(r.value);
    }
  }

  /** Every output item comes from the input or is a role word, and none names an organisation. */
  lemma {:induction false} FilterOutputFacts(key: string, items: seq<string>, x: string)
    requires x in FilterCategoryItems(key, items)
    ensures |x| >= 2 && !MatchesAny(Exclusions, x)
    ensures (x in items && (AllowedFor(key) == [] || MatchesAny(AllowedFor(key), x))) || (key == "stakeholders" && x in Roles)
    decreases |items|
  {
    FilterItemFacts(key, items[0]);
    var head := match FilterItem(key, items[0]) case Some(y) => [y] case None => [];
    if x !in head {
      FilterOutputFacts(key, items[1..], x);
    }
  }

  /** The per-item test outside the stakeholders category. */
  function Kept(key: string): string -> bool {
    it => !MatchesAny(Exclusions, it) && (AllowedFor(key) == [] || MatchesAny(AllowedFor(key), it)) && |it| >= 2
  }

  /** Outside the stakeholders category the filter keeps or drops whole items by a fixed test. */
  lemma {:induction false} FilterIsKept(key: string, items: seq<string>)
    requires key != "stakeholders"
    ensures FilterCategoryItems(key, items) == Filter(items, Kept(key))
    decreases |items|
  {
    if items != [] {
      FilterItemFacts(key, items[0]);
      FilterIsKept(key, items[1..]);
    }
  }

  /**
   Outside the stakeholders category the output is the input with items
   deleted (order and duplicates kept), and filtering again changes nothing.
   */
  lemma FilterSubsequenceIdempotent(key: string, items: seq<string>)
    requires key != "stakeholders"
    ensures IsSubsequence(FilterCategoryItems(key, items), items)
    ensures FilterCategoryItems(key, FilterCategoryItems(key, items)) == FilterCategoryItems(key, items)
  {
    FilterIsKept(key, items);
    FilterIsKept(key, FilterCategoryItems(key, items));
    FilterIsSubsequence(items, Kept(key));
    FilterIdempotent(items, Kept(key));
  }

  /** The output for a single item is that item's fate. */
  lemma SingleItem(key: string, it: string)
    ensures FilterCategoryItems(key, [it]) == match FilterItem(key, it) case Some(x) => [x] case None => []
  {
    assert [it][1..] == [];
  }

  /** An engineer at a company names an organisation. */
  lemma CompanyExcluded(it: string)
    requires it == "エンジニア株式会社"
    ensures MatchesAny(Exclusions, it)
  {
    ContainsInfix("エンジニア", "株式会社", "");
    assert "エンジニア" + "株式会社" + "" == it;
    assert Matches(Exclusions[0], it);
  }

  /** The first role word in an engineer at a company is the engineer. */
  lemma EngineerIsFirstRole(it: string, roles: seq<string>)
    requires it == "エンジニア株式会社" && roles == Roles
    ensures FirstRole(roles, it) == Some("エンジニア")
  {
    ContainsInfix("", "エンジニア", "株式会社");
    assert "" + "エンジニア" + "株式会社" == it;
    forall j | 0 <= j < 4 ensures !Contains(it, roles[j]) {
      NotContains(it, roles[j]);
    }
    assert roles[4..][0] == "エンジニア";
    assert FirstRole(roles[4..], it) == Some("エンジニア");
  }

  /** The stakeholders allow-list has no entry for the bare role word. */
  lemma EngineerNotAllowed(r: string)
    requires r == "エンジニア"
    ensures !MatchesAny(Exclusions, r)
    ensures AllowedFor("stakeholders") == AllowedPatterns(Stakeholders)
    ensures !MatchesAny(AllowedPatterns(Stakeholders), r)
  {
    AvoidsExclusions(r);
    NoneOccur(AllowedPatterns(Stakeholders), r);
  }

  /**
   Among the stakeholders a second pass can drop what the first produced: an
   engineer at a company becomes the role word, which the stakeholders
   allow-list does not accept.
   */
  lemma StakeholdersNotIdempotent(key: string, it: string, r: string)
    requires key == "stakeholders" && it == "エンジニア株式会社" && r == "エンジニア"
    ensures FilterCategoryItems(key, [it]) == [r]
    ensures FilterCategoryItems(key, [r]) == []
  {
    CompanyExcluded(it);
    EngineerIsFirstRole(it, Roles);
    assert FilterItem(key, it) == Some(r);
    SingleItem(key, it);
    EngineerNotAllowed(r);
    assert FilterItem(key, r) == None;
    SingleItem(key, r);
  }
}
