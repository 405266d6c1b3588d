/**
 The filter that removes extracted items made only of abstract words
 ("材料", "評価", ...). An item is cut into word tokens; it survives when
 some token is not abstract or when it carries a specific-looking pattern
 (two capitals in a row, digits next to Latin letters).
 */
module AbstractFilter {
  import opened Text
  import opened Seqs
  import opened Domain
  import opened Allocator

  predicate IsAsciiUpper(c: char) { 'A' <= c <= 'Z' }

  predicate IsAsciiLetter(c: char) { 'A' <= c <= 'Z' || 'a' <= c <= 'z' }

  /** `\d`: ASCII and full-width digits. */
  predicate IsDigit(c: char) { '0' <= c <= '9' || '０' <= c <= '９' }

  /**
   A character of a word token: `\w` (letters, digits, underscore) together
   with the explicitly listed kanji, hiragana, katakana and the long-vowel
   mark.
   */
  predicate WordChar(c: char) {
    || IsAsciiLetter(c) || IsDigit(c) || c == '_'
    || ('Ａ' <= c <= 'Ｚ') || ('ａ' <= c <= 'ｚ')
    || ('ぁ' <= c <= 'ゖ')
    || ('ァ' <= c <= 'ヺ') || c == 'ー'
    || ('一' <= c <= '鿿')
  }

  /** `re.findall` of the word-token pattern. */
  function Tokens(it: string): seq<string> {
    Runs(it, WordChar)
  }

  const AbstractTokens: set<string> := {"材料", "ツール", "装置", "システム", "工程", "手法", "方法", "測定", "評価"}

  /** The characters the abstract words are spelled with. */
  const AbstractChars: set<char> := {
    '材', '料', 'ツ', 'ー', 'ル', '装', '置', 'シ', 'ス', 'テ', 'ム', '工', '程', '手', '法', '方', '測', '定', '評', '価'
  }

  /** One of the three specific patterns starts at offset `i`: a match of each needs only two characters. */
  predicate SpecificAt(it: string, i: int)
    requires 0 <= i < |it| - 1
  {
    || (IsAsciiUpper(it[i]) && IsAsciiUpper(it[i + 1]))
    || (IsDigit(it[i]) && IsAsciiLetter(it[i + 1]))
    || (IsAsciiLetter(it[i]) && IsDigit(it[i + 1]))
  }

  predicate HasSpecificPattern(it: string) {
    exists i | 0 <= i < |it| - 1 :: SpecificAt(it, i)
  }

  /** The token set is not a subset of the abstract words, or the item looks specific. */
  predicate KeepItem(it: string) {
    (exists k | 0 <= k < |Tokens(it)| :: Tokens(it)[k] !in AbstractTokens) || HasSpecificPattern(it)
  }

  /** `_filter_abstract_items`: every category is kept, each list filtered item by item. */
  function FilterAbstract(info: Info): (r: Info)
    ensures r.Keys == info.Keys
    ensures forall c | c in info :: IsSubsequence(r[c], info[c])
  {
    var r := map c | c in info :: Filter(info[c], KeepItem);
    assert forall c | c in info :: IsSubsequence(r[c], info[c]) by {
      forall c | c in info ensures IsSubsequence(r[c], info[c]) {
        FilterIsSubsequence(info[c], KeepItem);
      }
    }
    r
  }

  // ---------------------------------------------------------------------------
  // Properties

  lemma {:induction false} KeepMember(s: string, i: int, inRun: char -> bool)
    requires 0 <= i < |s| && inRun(s[i])
    ensures s[i] in Keep(s, inRun)
    decreases |s|
  {
    if i > 0 {
      KeepMember(s[1..], i - 1, inRun);
    }
  }

  lemma {:induction false} ConcatMember(parts: seq<string>, c: char)
    requires c in Concat(parts)
    ensures exists k | 0 <= k < |parts| :: c in parts[k]
    decreases |parts|
  {
    if c !in parts[0] {
      ConcatMember(parts[1..], c);
      var k :| 0 <= k < |parts[1..]| && c in parts[1..][k];
      assert parts[k + 1] == parts[1..][k];
    }
  }

  /** Every abstract word is spelled with the listed characters. */
  lemma AbstractSpelling(w: string, c: char)
    requires w in AbstractTokens && c in w
    ensures c in AbstractChars
  {
  }

  /**
   A word character that occurs in no abstract word makes the item survive:
   the token holding it cannot be abstract.
   */
  lemma ConcreteCharKept(it: string, i: int)
    requires 0 <= i < |it| && WordChar(it[i]) && it[i] !in AbstractChars
    ensures KeepItem(it)
  {
    var ts := Tokens(it);
    RunsPartition(it, WordChar);
    KeepMember(it, i, WordChar);
    ConcatMember(ts, it[i]);
    var k :| 0 <= k < |ts| && it[i] in ts[k];
    if ts[k] in AbstractTokens {
      AbstractSpelling(ts[k], it[i]);
    }
  }

  /** An item without word characters is dropped (the empty token set is a subset of anything). */
  lemma NoWordCharsDropped(it: string)
    requires forall i | 0 <= i < |it| :: !WordChar(it[i])
    ensures !KeepItem(it)
  {
    var ts := Tokens(it);
    RunsPartition(it, WordChar);
    KeepNone(it, WordChar);
    forall i | 0 <= i < |it| - 1 ensures !SpecificAt(it, i) {}
  }

  lemma {:induction false} KeepNone(s: string, inRun: char -> bool)
    requires forall i | 0 <= i < |s| :: !inRun(s[i])
    ensures Keep(s, inRun) == []
    decreases |s|
  {
    if s != [] {
      KeepNone(s[1..], inRun);
    }
  }

  /** Two abstract words separated by punctuation are dropped. */
  lemma AbstractPairDropped(it: string)
    requires it == "測定・評価"
    ensures !KeepItem(it)
  {
    var rest := it[3..];
    assert WordChar(it[0]) && WordChar(it[1]) && !WordChar(it[2]);
    assert it[1..][1..] == it[2..];
    assert RunLength(it[2..], WordChar) == 0;
    assert RunLength(it, WordChar) == 2;
    assert it[2..][1..] == rest;
    assert WordChar(rest[0]) && WordChar(rest[1]) && rest[1..][1..] == [];
    assert RunLength(rest, WordChar) == 2;
    assert rest[2..] == [];
    assert Runs(it[2..], WordChar) == Runs(rest, WordChar);
    assert Runs(it, WordChar) == [it[..2]] + Runs(rest, WordChar);
    assert rest[..2] == rest;
    assert Runs(rest, WordChar) == [rest] + Runs([], WordChar);
    assert it[..2] == "測定" && rest == "評価";
    forall i | 0 <= i < |it| - 1 ensures !SpecificAt(it, i) {}
  }

  /** Re-filtering changes nothing, and exactly the surviving items of every list are kept. */
  lemma FilterAbstractFacts(info: Info, c: Category)
    requires c in info
    ensures FilterAbstract(FilterAbstract(info)) == FilterAbstract(info)
    ensures forall it | it in info[c] :: it in FilterAbstract(info)[c] <==> KeepItem(it)
  {
    var r := FilterAbstract(info);
    forall d | d in info ensures FilterAbstract(r)[d] == r[d] {
      FilterIdempotent(info[d], KeepItem);
    }
    FilterFacts(info[c], KeepItem);
  }
}
