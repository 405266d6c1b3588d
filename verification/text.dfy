/**
 String primitives of the Python runtime that the engine relies on, stated on
 `string` (a sequence of Unicode scalar values):
 - `needle in hay` (Contains), `hay.count(needle)` (Count), `hay.find(needle)` (Find)
 - `s.lower()` (Lower), `s.split()` (Split), `sep.join(parts)` (Join)
 */
module Text {

  /** `needle` occurs in `hay` starting at offset `i`. */
  ghost predicate OccursAt(hay: string, needle: string, i: int) {
    0 <= i && i + |needle| <= |hay| && hay[i..i + |needle|] == needle
  }

  /** Python's `needle in hay`: a substring test. */
  predicate Contains(hay: string, needle: string)
    decreases |hay|
  {
    needle <= hay || (hay != [] && Contains(hay[1..], needle))
  }

  lemma {:induction false} ContainsIffOccurs(hay: string, needle: string)
    ensures Contains(hay, needle) <==> exists i :: OccursAt(hay, needle, i)
    decreases |hay|
  {
    if needle <= hay {
      assert OccursAt(hay, needle, 0);
    } else if hay != [] {
      ContainsIffOccurs(hay[1..], needle);
      if exists i :: OccursAt(hay[1..], needle, i) {
        var i :| OccursAt(hay[1..], needle, i);
        assert hay[i + 1..i + 1 + |needle|] == hay[1..][i..i + |needle|];
        assert OccursAt(hay, needle, i + 1);
      }
      if exists i :: OccursAt(hay, needle, i) {
        var i :| OccursAt(hay, needle, i);
        if i > 0 {
          assert hay[1..][i - 1..i - 1 + |needle|] == hay[i..i + |needle|];
          assert OccursAt(hay[1..], needle, i - 1);
        }
      }
    }
  }

  /** A text contains every piece of itself, wherever it sits. */
  lemma {:induction false} ContainsInfix(a: string, b: string, c: string)
    ensures Contains(a + b + c, b)
    decreases |a|
  {
    if a == [] {
      assert b <= a + b + c;
    } else {
      assert (a + b + c)[1..] == a[1..] + b + c;
      ContainsInfix(a[1..], b, c);
    }
  }

  /** A needle longer than the text, or whose first character the text lacks, does not occur. */
  lemma {:induction false} NotContains(hay: string, needle: string)
    requires |needle| > |hay| || (needle != [] && needle[0] !in hay)
    ensures !Contains(hay, needle)
    decreases |hay|
  {
    if hay != [] {
      NotContains(hay[1..], needle);
    }
  }

  /** A substring of a substring is a substring. */
  lemma ContainsTrans(a: string, b: string, t: string)
    requires Contains(a, b) && Contains(b, t)
    ensures Contains(a, t)
  {
    ContainsIffOccurs(a, b);
    ContainsIffOccurs(b, t);
    var i :| OccursAt(a, b, i);
    var j :| OccursAt(b, t, j);
    forall k | 0 <= k < |t|
      ensures a[i + j + k] == t[k]
    {
      assert t[k] == b[j + k] == a[i..i + |b|][j + k];
    }
    assert a[i + j..i + j + |t|] == t;
    assert OccursAt(a, t, i + j);
    ContainsIffOccurs(a, t);
  }

  /** Prepending text never removes an occurrence. */
  lemma {:induction false} ContainsPrepend(a: string, hay: string, needle: string)
    requires Contains(hay, needle)
    ensures Contains(a + hay, needle)
    decreases |a|
  {
    if a != [] {
      assert (a + hay)[1..] == a[1..] + hay;
      ContainsPrepend(a[1..], hay, needle);
    } else {
      assert a + hay == hay;
    }
  }

  /** Appending text never removes an occurrence. */
  lemma {:induction false} ContainsAppend(hay: string, b: string, needle: string)
    requires Contains(hay, needle)
    ensures Contains(hay + b, needle)
    decreases |hay|
  {
    if needle <= hay {
      assert needle <= hay + b;
    } else {
      assert (hay + b)[1..] == hay[1..] + b;
      ContainsAppend(hay[1..], b, needle);
    }
  }

  // ---------------------------------------------------------------------------
  // Case folding

  /**
   `str.lower()` on one character. Only ASCII and full-width Latin capitals are
   folded; every other character is returned unchanged.
   */
  function LowerChar(c: char): char {
    if 'A' <= c <= 'Z' then (c as int + 32) as char
    else if '\U{FF21}' <= c <= '\U{FF3A}' then (c as int + 32) as char
    else c
  }

  function Lower(s: string): string {
    seq(|s|, i requires 0 <= i < |s| => LowerChar(s[i]))
  }

  /** Folding both sides keeps every substring hit. */
  lemma {:induction false} ContainsLower(hay: string, needle: string)
    requires Contains(hay, needle)
    ensures Contains(Lower(hay), Lower(needle))
    decreases |hay|
  {
    if needle <= hay {
      assert Lower(hay)[..|needle|] == Lower(needle);
      assert Lower(needle) <= Lower(hay);
    } else {
      assert Lower(hay)[1..] == Lower(hay[1..]);
      ContainsLower(hay[1..], needle);
    }
  }

  /** A case-insensitive hit inside `b` is still a hit inside `a + b`. */
  lemma ContainsLowerPrepend(a: string, b: string, needle: string)
    requires Contains(Lower(b), needle)
    ensures Contains(Lower(a + b), needle)
  {
    assert Lower(a + b) == Lower(a) + Lower(b);
    ContainsPrepend(Lower(a), Lower(b), needle);
  }

  // ---------------------------------------------------------------------------
  // str.count and str.find

  /**
   Python's `hay.count(needle)`: non-overlapping occurrences scanned left to
   right; the empty needle occurs `|hay| + 1` times.
   */
  function Count(hay: string, needle: string): nat
    decreases |hay|
  {
    if needle == [] then |hay| + 1
    else if needle <= hay then 1 + Count(hay[|needle|..], needle)
    else if hay == [] then 0
    else Count(hay[1..], needle)
  }

  /** A count is positive exactly when the needle is a substring. */
  lemma {:induction false} CountPositiveIffContains(hay: string, needle: string)
    ensures Count(hay, needle) > 0 <==> Contains(hay, needle)
    decreases |hay|
  {
    if needle == [] {
      assert needle <= hay;
    } else if needle <= hay {
    } else if hay != [] {
      CountPositiveIffContains(hay[1..], needle);
    }
  }

  /**
   Python's `hay.find(needle)`: the first offset at which `needle` occurs,
   or -1 when it does not occur.
   */
  function Find(hay: string, needle: string): (r: int)
    ensures -1 <= r <= |hay|
    ensures r >= 0 <==> Contains(hay, needle)
    ensures r >= 0 ==> OccursAt(hay, needle, r)
    ensures forall j | 0 <= j < r :: !OccursAt(hay, needle, j)
    decreases |hay|
  {
    if needle <= hay then
      assert hay[..|needle|] == needle;
      0
    else if hay == [] then
      -1
    else
      var k := Find(hay[1..], needle);
      FindStep(hay, needle, k);
      if k < 0 then -1 else k + 1
  }

  /** Occurrences in `hay[1..]` are the occurrences in `hay` shifted left by one. */
  lemma OccursShift(hay: string, needle: string, j: int)
    requires hay != [] && 1 <= j
    ensures OccursAt(hay, needle, j) <==> OccursAt(hay[1..], needle, j - 1)
  {
    if j + |needle| <= |hay| {
      assert hay[1..][j - 1..j - 1 + |needle|] == hay[j..j + |needle|];
    }
  }

  /** The step of `Find` past a non-matching first offset. */
  lemma FindStep(hay: string, needle: string, k: int)
    requires hay != [] && !(needle <= hay)
    requires k >= 0 ==> OccursAt(hay[1..], needle, k)
    requires forall j | 0 <= j < k :: !OccursAt(hay[1..], needle, j)
    requires k >= 0 <==> Contains(hay[1..], needle)
    ensures k >= 0 ==> OccursAt(hay, needle, k + 1)
    ensures forall j | 0 <= j < k + 1 :: !OccursAt(hay, needle, j)
    ensures k >= 0 <==> Contains(hay, needle)
  {
    if k >= 0 {
      OccursShift(hay, needle, k + 1);
    }
    forall j | 0 <= j < k + 1 ensures !OccursAt(hay, needle, j) {
      if j == 0 {
        assert OccursAt(hay, needle, 0) ==> needle <= hay;
      } else {
        OccursShift(hay, needle, j);
      }
    }
  }

  // ---------------------------------------------------------------------------
  // Maximal runs: str.split() and regex token scans

  /** Length of the leading run of characters satisfying `inRun`. */
  function RunLength(s: string, inRun: char -> bool): (n: nat)
    ensures n <= |s|
    ensures forall i | 0 <= i < n :: inRun(s[i])
    ensures n < |s| ==> !inRun(s[n])
    decreases |s|
  {
    if s == [] || !inRun(s[0]) then 0 else 1 + RunLength(s[1..], inRun)
  }

  /** The maximal runs of characters satisfying `inRun`, left to right. */
  function Runs(s: string, inRun: char -> bool): seq<string>
    decreases |s|
  {
    if s == [] then []
    else if !inRun(s[0]) then Runs(s[1..], inRun)
    else
      var n := RunLength(s, inRun);
      [s[..n]] + Runs(s[n..], inRun)
  }

  /** The characters of `s` satisfying `inRun`, in order. */
  function Keep(s: string, inRun: char -> bool): string
    decreases |s|
  {
    if s == [] then [] else (if inRun(s[0]) then [s[0]] else []) + Keep(s[1..], inRun)
  }

  function Concat(parts: seq<string>): string
    decreases |parts|
  {
    if parts == [] then [] else parts[0] + Concat(parts[1..])
  }

  lemma {:induction false} KeepAppend(a: string, b: string, inRun: char -> bool)
    ensures Keep(a + b, inRun) == Keep(a, inRun) + Keep(b, inRun)
    decreases |a|
  {
    if a == [] {
      assert a + b == b;
    } else {
      var head: string := if inRun(a[0]) then [a[0]] else [];
      assert (a + b)[0] == a[0] && (a + b)[1..] == a[1..] + b;
      KeepAppend(a[1..], b, inRun);
      assert Keep(a + b, inRun) == head + (Keep(a[1..], inRun) + Keep(b, inRun));
      assert Keep(a, inRun) == head + Keep(a[1..], inRun);
    }
  }

  lemma {:induction false} KeepAll(a: string, inRun: char -> bool)
    requires forall i | 0 <= i < |a| :: inRun(a[i])
    ensures Keep(a, inRun) == a
    decreases |a|
  {
    if a != [] {
      KeepAll(a[1..], inRun);
    }
  }

  /**
   The runs are non-empty, lie wholly inside the class, and together spell
   out exactly the characters of `s` that are in the class.
   */
  lemma {:induction false} RunsPartition(s: string, inRun: char -> bool)
    ensures forall k | 0 <= k < |Runs(s, inRun)| ::
              Runs(s, inRun)[k] != [] && forall i | 0 <= i < |Runs(s, inRun)[k]| :: inRun(Runs(s, inRun)[k][i])
    ensures Concat(Runs(s, inRun)) == Keep(s, inRun)
    decreases |s|
  {
    if s == [] {
    } else if !inRun(s[0]) {
      RunsPartition(s[1..], inRun);
    } else {
      var n := RunLength(s, inRun);
      RunsPartition(s[n..], inRun);
      assert s == s[..n] + s[n..];
      KeepAppend(s[..n], s[n..], inRun);
      KeepAll(s[..n], inRun);
      var rs := Runs(s, inRun);
      assert rs == [s[..n]] + Runs(s[n..], inRun);
      assert rs[1..] == Runs(s[n..], inRun);
    }
  }

  /** Python's `str.isspace()` on one character. */
  predicate IsSpace(c: char) {
    || c == ' ' || c == '\t' || c == '\n' || c == '\r'
    || c == '\U{000B}' || c == '\U{000C}'
    || ('\U{001C}' <= c <= '\U{001F}')
    || c == '\U{0085}' || c == '\U{00A0}' || c == '\U{1680}'
    || ('\U{2000}' <= c <= '\U{200A}')
    || c == '\U{2028}' || c == '\U{2029}' || c == '\U{202F}' || c == '\U{205F}'
    || c == '\U{3000}'
  }

  predicate IsNotSpace(c: char) {
    !IsSpace(c)
  }

  /** Python's `s.split()` with no separator: the maximal non-whitespace runs. */
  function Split(s: string): seq<string> {
    Runs(s, IsNotSpace)
  }

  // ---------------------------------------------------------------------------
  // str.join

  /** Python's `sep.join(parts)`. */
  function Join(parts: seq<string>, sep: string): string
    decreases |parts|
  {
    if parts == [] then ""
    else if |parts| == 1 then parts[0]
    else parts[0] + sep + Join(parts[1..], sep)
  }

  /** Every joined part is a substring of the joined text. */
  lemma {:induction false} JoinContainsParts(parts: seq<string>, sep: string)
    ensures forall k | 0 <= k < |parts| :: Contains(Join(parts, sep), parts[k])
    decreases |parts|
  {
    if |parts| == 1 {
      ContainsInfix([], parts[0], []);
      assert [] + parts[0] + [] == parts[0];
    } else if |parts| > 1 {
      JoinContainsParts(parts[1..], sep);
      var rest := Join(parts[1..], sep);
      forall k | 0 <= k < |parts|
        ensures Contains(Join(parts, sep), parts[k])
      {
        if k == 0 {
          ContainsInfix([], parts[0], sep + rest);
          assert [] + parts[0] + (sep + rest) == Join(parts, sep);
        } else {
          assert parts[k] == parts[1..][k - 1];
          ContainsPrepend(parts[0] + sep, rest, parts[k]);
        }
      }
    }
  }
}
