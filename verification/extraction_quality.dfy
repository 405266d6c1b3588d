/**
 The quality check of the extracted vocabulary before a table is built:
 every category needs at least ten items, the joined vocabulary may hold at
 most five generic words, it must show at least ten specific-looking
 patterns, and every required term must occur in it (case-insensitively).
 */
module ExtractionQuality {
  import opened Text
  import opened Seqs
  import opened Domain
  import opened Allocator
  import opened Validator
  import opened AbstractFilter

  const MinItems: nat := 10
  const GenericMax: nat := 5
  const SpecificMin: nat := 10

  /** Words whose occurrences mark the extraction as generic. */
  const QualityGenericWords: seq<string> := [
    "ツール", "システム", "ソフトウェア", "材料", "装置", "機器",
    "データ", "情報", "レポート", "資料", "文書", "手法", "方法"
  ]

  datatype QualityError =
    | TooFewItems(cat: Category, count: nat)
    | TooManyGenericWords(count: nat)
    | TooFewSpecificTerms(count: nat)
    | RequiredTermsMissing(terms: seq<string>)

  /** `(is_valid, errors, missing_categories, missing_required_terms)`. */
  datatype Quality = Quality(valid: bool, errors: seq<QualityError>, thinCategories: seq<Category>, missingRequired: seq<string>)

  // ---------------------------------------------------------------------------
  // The joined vocabulary

  /** `" ".join(items)` for each category present, in category order. */
  function Sections(info: Info, cats: seq<Category>): seq<string>
    decreases |cats|
  {
    if cats == [] then []
    else (if cats[0] in info then [Join(info[cats[0]], " ")] else []) + Sections(info, cats[1..])
  }

  /** `all_content`: the sections joined by spaces. */
  function AllContent(info: Info): string {
    Join(Sections(info, AllCategories), " ")
  }

  /** The categories present with fewer than ten items, in category order. */
  function ThinCategories(info: Info, cats: seq<Category>): (r: seq<Category>)
    ensures forall c :: c in r <==> c in cats && c in info && |info[c]| < MinItems
    decreases |cats|
  {
    if cats == [] then []
    else (if cats[0] in info && |info[cats[0]]| < MinItems then [cats[0]] else []) + ThinCategories(info, cats[1..])
  }

  // ---------------------------------------------------------------------------
  // Specific-pattern matches

  /** Offset `i` starts a run of two or more capitals: one match of `[A-Z]{2,}`. */
  predicate UpperRunStart(s: string, i: int)
    requires 0 <= i < |s| - 1
  {
    IsAsciiUpper(s[i]) && IsAsciiUpper(s[i + 1]) && (i == 0 || !IsAsciiUpper(s[i - 1]))
  }

  /**
   The matches of the three patterns found from offset `i` on. A match of
   `\d+[A-Za-z]+` ends its digit run where a letter follows, a match of
   `[A-Za-z]+\d+` ends its letter run where a digit follows, and a match of
   `[A-Z]{2,}` is a maximal run of capitals; so each match is counted at
   one offset.
   */
  function SpecificFrom(s: string, i: nat): nat
    decreases |s| - i
  {
    if i + 1 >= |s| then 0
    else
      (if UpperRunStart(s, i) then 1 else 0)
      + (if IsDigit(s[i]) && IsAsciiLetter(s[i + 1]) then 1 else 0)
      + (if IsAsciiLetter(s[i]) && IsDigit(s[i + 1]) then 1 else 0)
      + SpecificFrom(s, i + 1)
  }

  function SpecificCount(s: string): nat {
    SpecificFrom(s, 0)
  }

  /** `sum(all_content.count(w) for w in generic_words)`: the words are searched as written. */
  function QualityGenericCount(content: string): nat {
    GenericCount(content, QualityGenericWords)
  }

  /** The required terms that never occur in the lowered vocabulary, in their given order. */
  function MissingRequired(lowContent: string, required: seq<string>): seq<string>
    decreases |required|
  {
    if required == [] then []
    else (if Count(lowContent, Lower(required[0])) == 0 then [required[0]] else []) + MissingRequired(lowContent, required[1..])
  }

  // ---------------------------------------------------------------------------
  // The verdict

  function ThinErrors(info: Info, cats: seq<Category>): (r: seq<QualityError>)
    requires forall c | c in cats :: c in info
    ensures |r| == |cats|
  {
    seq(|cats|, k requires 0 <= k < |cats| => TooFewItems(cats[k], |info[cats[k]]|))
  }

  /** The position of an error's check in the order the checks run. */
  function Rank(e: QualityError): nat {
    match e
    case TooFewItems(_, _) => 0
    case TooManyGenericWords(_) => 1
    case TooFewSpecificTerms(_) => 2
    case RequiredTermsMissing(_) => 3
  }

  /** Each error comes from a later check than the one before it. */
  predicate RankIncreasing(es: seq<QualityError>) {
    forall i, j | 0 <= i < j < |es| :: Rank(es[i]) < Rank(es[j])
  }

  /** The number of the three later checks that fail. */
  function FailedChecks(generic: nat, specific: nat, missing: seq<string>): nat {
    (if generic > GenericMax then 1 else 0) + (if specific < SpecificMin then 1 else 0) + (if missing != [] then 1 else 0)
  }

  /** The error the generic, specific or required check reports from these measurements. */
  predicate IsCheckError(e: QualityError, generic: nat, specific: nat, missing: seq<string>) {
    e == TooManyGenericWords(generic) || e == TooFewSpecificTerms(specific) || e == RequiredTermsMissing(missing)
  }

  /**
   The error list a run of the three later checks leaves: each check's
   error exactly when it fails, nothing else, in check order.
   */
  ghost predicate CheckErrorList(r: seq<QualityError>, generic: nat, specific: nat, missing: seq<string>) {
    && |r| == FailedChecks(generic, specific, missing)
    && RankIncreasing(r)
    && (forall e | e in r :: IsCheckError(e, generic, specific, missing))
    && (TooManyGenericWords(generic) in r <==> generic > GenericMax)
    && (TooFewSpecificTerms(specific) in r <==> specific < SpecificMin)
    && (RequiredTermsMissing(missing) in r <==> missing != [])
  }

  /** The errors after the per-category ones, in the order the checks run. */
  function CheckErrors(generic: nat, specific: nat, missing: seq<string>): (r: seq<QualityError>)
    ensures TooManyGenericWords(generic) in r <==> generic > GenericMax
    ensures TooFewSpecificTerms(specific) in r <==> specific < SpecificMin
    ensures RequiredTermsMissing(missing) in r <==> missing != []
    ensures forall e | e in r :: !e.TooFewItems?
    ensures |r| == FailedChecks(generic, specific, missing)
    ensures RankIncreasing(r)
    ensures forall e | e in r :: IsCheckError(e, generic, specific, missing)
  {
    (if generic > GenericMax then [TooManyGenericWords(generic)] else [])
    + (if specific < SpecificMin then [TooFewSpecificTerms(specific)] else [])
    + (if missing != [] then [RequiredTermsMissing(missing)] else [])
  }

  /** The properties of CheckErrorList pin the list down: no other list has them. */
  lemma CheckErrorListUnique(r: seq<QualityError>, generic: nat, specific: nat, missing: seq<string>)
    requires CheckErrorList(r, generic, specific, missing)
    ensures r == CheckErrors(generic, specific, missing)
  {
    var c := CheckErrors(generic, specific, missing);
    forall e | e in r ensures e in c {
      assert IsCheckError(e, generic, specific, missing);
    }
    forall e | e in c ensures e in r {
      assert IsCheckError(e, generic, specific, missing);
    }
    SameRankedLists(r, c);
  }

  /** Two rank-increasing lists with the same entries are equal. */
  lemma {:induction false} SameRankedLists(r: seq<QualityError>, c: seq<QualityError>)
    requires RankIncreasing(r) && RankIncreasing(c)
    requires forall e | e in r :: e in c
    requires forall e | e in c :: e in r
    ensures r == c
    decreases |r| + |c|
  {
    assert |r| > 0 ==> r[0] in c;
    assert |c| > 0 ==> c[0] in r;
    if r != [] && c != [] {
      RankedHeadsAgree(r, c);
      RankedTailIn(r, c);
      RankedTailIn(c, r);
      SameRankedLists(r[1..], c[1..]);
      assert r == [r[0]] + r[1..];
      assert c == [c[0]] + c[1..];
    }
  }

  /** The head of a rank-increasing list has the least rank of its entries, so two such lists with the same entries share their head. */
  lemma RankedHeadsAgree(r: seq<QualityError>, c: seq<QualityError>)
    requires RankIncreasing(r) && RankIncreasing(c) && r != [] && c != []
    requires forall e | e in r :: e in c
    requires forall e | e in c :: e in r
    ensures r[0] == c[0]
  {
    assert r[0] in r;
    assert c[0] in c;
    var i :| 0 <= i < |c| && c[i] == r[0];
    var j :| 0 <= j < |r| && r[j] == c[0];
    HeadLeast(r, j);
    HeadLeast(c, i);
  }

  /** The head of a rank-increasing list has the least rank, and no later entry shares it. */
  lemma HeadLeast(r: seq<QualityError>, k: int)
    requires RankIncreasing(r) && 0 <= k < |r|
    ensures Rank(r[0]) <= Rank(r[k])
    ensures Rank(r[0]) == Rank(r[k]) ==> k == 0
  {
    if k > 0 {
      assert Rank(r[0]) < Rank(r[k]);
    }
  }

  /** Past a shared head, every later entry of one list is a later entry of the other. */
  lemma RankedTailIn(r: seq<QualityError>, c: seq<QualityError>)
    requires RankIncreasing(r) && RankIncreasing(c) && r != [] && c != [] && r[0] == c[0]
    requires forall e | e in r :: e in c
    ensures RankIncreasing(r[1..])
    ensures forall e | e in r[1..] :: e in c[1..]
  {
    forall e | e in r[1..] ensures e in c[1..] {
      var k :| 0 <= k < |r[1..]| && r[1..][k] == e;
      assert r[k + 1] == e;
      assert Rank(r[0]) < Rank(e);
      assert e in r;
      var m :| 0 <= m < |c| && c[m] == e;
      assert m != 0;
      assert c[1..][m - 1] == e;
    }
  }

  /**
   The verdict from the four measurements: the per-category errors, then
   the generic, specific and required errors that fail, in that order, and
   nothing else.
   */
  function Judge(info: Info, thin: seq<Category>, generic: nat, specific: nat, missing: seq<string>): (q: Quality)
    requires forall c | c in thin :: c in info
    ensures q.valid <==> q.errors == []
    ensures q.valid <==> thin == [] && generic <= GenericMax && specific >= SpecificMin && missing == []
    ensures q.thinCategories == thin && q.missingRequired == missing
    ensures |q.errors| == |thin| + FailedChecks(generic, specific, missing)
    ensures forall k | 0 <= k < |thin| :: q.errors[k] == TooFewItems(thin[k], |info[thin[k]]|)
    ensures RankIncreasing(q.errors[|thin|..])
    ensures forall e | e in q.errors[|thin|..] :: IsCheckError(e, generic, specific, missing)
    ensures TooManyGenericWords(generic) in q.errors <==> generic > GenericMax
    ensures TooFewSpecificTerms(specific) in q.errors <==> specific < SpecificMin
    ensures RequiredTermsMissing(missing) in q.errors <==> missing != []
  {
    var head := ThinErrors(info, thin);
    var errors := head + CheckErrors(generic, specific, missing);
    ThinThenChecks(head, generic, specific, missing);
    Quality(errors == [], errors, thin, missing)
  }

  /** Per-category errors followed by the later checks' errors keep the later errors' facts. */
  lemma ThinThenChecks(head: seq<QualityError>, generic: nat, specific: nat, missing: seq<string>)
    requires forall e | e in head :: e.TooFewItems?
    ensures var errors := head + CheckErrors(generic, specific, missing);
            && errors[|head|..] == CheckErrors(generic, specific, missing)
            && (TooManyGenericWords(generic) in errors <==> generic > GenericMax)
            && (TooFewSpecificTerms(specific) in errors <==> specific < SpecificMin)
            && (RequiredTermsMissing(missing) in errors <==> missing != [])
  {
    var tail := CheckErrors(generic, specific, missing);
    assert (head + tail)[|head|..] == tail;
    assert TooManyGenericWords(generic) !in head;
    assert TooFewSpecificTerms(specific) !in head;
    assert RequiredTermsMissing(missing) !in head;
  }

  /** `_validate_extraction_quality`. */
  function ValidateExtractionQuality(info: Info, required: seq<string>): (q: Quality)
    ensures q.valid <==> q.errors == []
  {
    var content := AllContent(info);
    Judge(info, ThinCategories(info, AllCategories), QualityGenericCount(content), SpecificCount(content),
          MissingRequired(Lower(content), required))
  }

  // ---------------------------------------------------------------------------
  // Properties

  /** A required term is reported missing exactly when it does not occur, ignoring case; the empty term always occurs. */
  lemma {:induction false} MissingRequiredIff(lowContent: string, required: seq<string>, t: string)
    ensures t in MissingRequired(lowContent, required) <==> t in required && !Contains(lowContent, Lower(t))
    decreases |required|
  {
    if required != [] {
      CountPositiveIffContains(lowContent, Lower(required[0]));
      MissingRequiredIff(lowContent, required[1..], t);
    }
  }

  /** A category is reported thin exactly when it is present with fewer than ten items. */
  lemma QualityThin(info: Info, required: seq<string>, c: Category)
    ensures c in ValidateExtractionQuality(info, required).thinCategories <==> c in info && |info[c]| < 10
  {
    CategoryListed(c);
  }

  /** A required term is reported missing exactly when the lowered vocabulary does not contain it lowered. */
  lemma QualityMissing(info: Info, required: seq<string>, t: string)
    ensures t in ValidateExtractionQuality(info, required).missingRequired
            <==> t in required && !Contains(Lower(AllContent(info)), Lower(t))
  {
    MissingRequiredIff(Lower(AllContent(info)), required, t);
  }

  /**
   The per-category errors come first; after them come the generic-word,
   specific-pattern and required-term errors, each present exactly when
   its check fails, in that order, and nothing else. The extraction is
   valid exactly when no category is thin, at most five generic words
   occur, at least ten specific patterns occur and no required term is
   missing.
   */
  lemma QualityErrors(info: Info, required: seq<string>)
    ensures var q := ValidateExtractionQuality(info, required);
            var content := AllContent(info);
            && (forall k | 0 <= k < |q.thinCategories| ::
                  q.thinCategories[k] in info && q.errors[k] == TooFewItems(q.thinCategories[k], |info[q.thinCategories[k]]|))
            && |q.errors| == |q.thinCategories| + FailedChecks(QualityGenericCount(content), SpecificCount(content), q.missingRequired)
            && CheckErrorList(q.errors[|q.thinCategories|..], QualityGenericCount(content), SpecificCount(content), q.missingRequired)
            && (TooManyGenericWords(QualityGenericCount(content)) in q.errors <==> QualityGenericCount(content) > 5)
            && (TooFewSpecificTerms(SpecificCount(content)) in q.errors <==> SpecificCount(content) < 10)
            && (RequiredTermsMissing(q.missingRequired) in q.errors <==> q.missingRequired != [])
            && (q.valid <==> q.thinCategories == [] && QualityGenericCount(content) <= 5
                             && SpecificCount(content) >= 10 && q.missingRequired == [])
  {
    var q := ValidateExtractionQuality(info, required);
    var thin := ThinCategories(info, AllCategories);
    assert q.thinCategories == thin;
    forall k | 0 <= k < |thin| ensures thin[k] in info && q.errors[k] == TooFewItems(thin[k], |info[thin[k]]|) {
      assert thin[k] in thin;
    }
    var content := AllContent(info);
    var tail := q.errors[|thin|..];
    assert tail == CheckErrors(QualityGenericCount(content), SpecificCount(content), q.missingRequired) by {
      ThinThenChecks(ThinErrors(info, thin), QualityGenericCount(content), SpecificCount(content), q.missingRequired);
    }
  }

  /** Every item is part of its section. */
  lemma {:induction false} SectionsContain(info: Info, cats: seq<Category>, c: Category, k: int)
    requires c in cats && c in info && 0 <= k < |info[c]|
    ensures exists j | 0 <= j < |Sections(info, cats)| :: Contains(Sections(info, cats)[j], info[c][k])
    decreases |cats|
  {
    var head := if cats[0] in info then [Join(info[cats[0]], " ")] else [];
    var rest := Sections(info, cats[1..]);
    assert Sections(info, cats) == head + rest;
    if cats[0] == c {
      JoinContainsParts(info[c], " ");
      assert Sections(info, cats)[0] == Join(info[c], " ");
    } else {
      SectionsContain(info, cats[1..], c, k);
      var j :| 0 <= j < |rest| && Contains(rest[j], info[c][k]);
      assert Sections(info, cats)[|head| + j] == rest[j];
    }
  }

  /** A required term that is itself an extracted item is never reported missing. */
  lemma ExtractedTermNotMissing(info: Info, required: seq<string>, c: Category, k: int)
    requires c in info && 0 <= k < |info[c]|
    ensures info[c][k] !in ValidateExtractionQuality(info, required).missingRequired
  {
    var t := info[c][k];
    var content := AllContent(info);
    CategoryListed(c);
    SectionsContain(info, AllCategories, c, k);
    var secs := Sections(info, AllCategories);
    var j :| 0 <= j < |secs| && Contains(secs[j], t);
    JoinContainsParts(secs, " ");
    ContainsTrans(content, secs[j], t);
    ContainsLower(content, t);
    MissingRequiredIff(Lower(content), required, t);
  }

  /** A run of capitals reaches back to where it starts. */
  lemma {:induction false} UpperRunHasStart(s: string, i: int)
    requires 0 <= i < |s| - 1 && IsAsciiUpper(s[i]) && IsAsciiUpper(s[i + 1])
    ensures exists j | 0 <= j <= i :: UpperRunStart(s, j)
    decreases i
  {
    if i > 0 && IsAsciiUpper(s[i - 1]) {
      UpperRunHasStart(s, i - 1);
    } else {
      assert UpperRunStart(s, i);
    }
  }

  lemma {:induction false} SpecificFromIff(s: string, i: nat)
    ensures SpecificFrom(s, i) > 0 <==> exists j | i <= j < |s| - 1 :: CountedAt(s, j)
    decreases |s| - i
  {
    if i + 1 < |s| {
      SpecificFromIff(s, i + 1);
      if !CountedAt(s, i) {
        assert SpecificFrom(s, i) == SpecificFrom(s, i + 1);
        if exists j | i <= j < |s| - 1 :: CountedAt(s, j) {
          var j :| i <= j < |s| - 1 && CountedAt(s, j);
          assert j != i;
        }
      }
    }
  }

  /** Some match is counted at offset `j`. */
  predicate CountedAt(s: string, j: int)
    requires 0 <= j < |s| - 1
  {
    UpperRunStart(s, j) || (IsDigit(s[j]) && IsAsciiLetter(s[j + 1])) || (IsAsciiLetter(s[j]) && IsDigit(s[j + 1]))
  }

  /**
   The specific-pattern count is positive exactly when the text has one of
   the patterns the abstract-word filter accepts as specific.
   */
  lemma SpecificCountIff(s: string)
    ensures SpecificCount(s) > 0 <==> HasSpecificPattern(s)
  {
    SpecificFromIff(s, 0);
    if HasSpecificPattern(s) {
      var i :| 0 <= i < |s| - 1 && SpecificAt(s, i);
      if IsAsciiUpper(s[i]) && IsAsciiUpper(s[i + 1]) {
        UpperRunHasStart(s, i);
        var j :| 0 <= j <= i && UpperRunStart(s, j);
        assert CountedAt(s, j);
      } else {
        assert CountedAt(s, i);
      }
    }
    if SpecificCount(s) > 0 {
      var j :| 0 <= j < |s| - 1 && CountedAt(s, j);
      assert SpecificAt(s, j);
    }
  }
}
