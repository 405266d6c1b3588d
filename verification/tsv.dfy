/**
 The tab-separated export of the process table: a header row with the
 phase names and one row per field, seven phase columns after a label
 column. Data cells have tabs and newlines replaced by spaces; header
 cells, as written, do not (see `ConvertToTsv` and `ConvertToTsvClean`).
 */
module Tsv {
  import opened Wrappers
  import opened Text
  import opened PhaseTable

  // ---------------------------------------------------------------------------
  // Splitting on one character

  /** Python's `s.split(c)` for a one-character separator: the pieces between separators, empty ones included. */
  function SplitOn(s: string, c: char): (r: seq<string>)
    ensures |r| >= 1
    decreases |s|
  {
    if s == [] then [[]]
    else
      var rest := SplitOn(s[1..], c);
      if s[0] == c then [[]] + rest else [[s[0]] + rest[0]] + rest[1..]
  }

  lemma {:induction false} SplitOnClean(a: string, c: char)
    requires c !in a
    ensures SplitOn(a, c) == [a]
    decreases |a|
  {
    if a != [] {
      SplitOnClean(a[1..], c);
      assert [a[0]] + a[1..] == a;
    }
  }

  lemma {:induction false} SplitOnPrefix(a: string, c: char, rest: string)
    requires c !in a
    ensures SplitOn(a + [c] + rest, c) == [a] + SplitOn(rest, c)
    decreases |a|
  {
    var s := a + [c] + rest;
    if a == [] {
      assert s[1..] == rest;
    } else {
      assert s[1..] == a[1..] + [c] + rest;
      SplitOnPrefix(a[1..], c, rest);
      assert [a[0]] + a[1..] == a;
    }
  }

  /** Splitting a joined text on its one-character separator gives the parts back when no part contains it. */
  lemma {:induction false} SplitJoin(parts: seq<string>, c: char)
    requires |parts| >= 1
    requires forall k | 0 <= k < |parts| :: c !in parts[k]
    ensures SplitOn(Join(parts, [c]), c) == parts
    decreases |parts|
  {
    if |parts| == 1 {
      SplitOnClean(parts[0], c);
    } else {
      SplitJoin(parts[1..], c);
      SplitOnPrefix(parts[0], c, Join(parts[1..], [c]));
      assert [parts[0]] + parts[1..] == parts;
    }
  }

  /** A character absent from every part and from the separator is absent from the joined text. */
  lemma {:induction false} JoinAvoids(parts: seq<string>, sep: string, c: char)
    requires c !in sep
    requires forall k | 0 <= k < |parts| :: c !in parts[k]
    ensures c !in Join(parts, sep)
    decreases |parts|
  {
    if |parts| > 1 {
      JoinAvoids(parts[1..], sep, c);
    }
  }

  /** One more piece than separators. */
  lemma {:induction false} SplitCount(s: string, c: char)
    ensures |SplitOn(s, c)| == multiset(s)[c] + 1
    decreases |s|
  {
    if s != [] {
      SplitCount(s[1..], c);
      assert s == [s[0]] + s[1..];
    }
  }

  /** How often `c` occurs in all the parts together. */
  function CountIn(parts: seq<string>, c: char): nat
    decreases |parts|
  {
    if parts == [] then 0 else multiset(parts[0])[c] + CountIn(parts[1..], c)
  }

  lemma {:induction false} JoinCount(parts: seq<string>, c: char)
    requires |parts| >= 1
    ensures multiset(Join(parts, [c]))[c] == |parts| - 1 + CountIn(parts, c)
    decreases |parts|
  {
    if |parts| > 1 {
      JoinCount(parts[1..], c);
      assert multiset(parts[0] + [c] + Join(parts[1..], [c])) == multiset(parts[0]) + multiset([c]) + multiset(Join(parts[1..], [c]));
    }
  }

  // ---------------------------------------------------------------------------
  // The export

  function SanitizeChar(ch: char): char {
    if ch == '\t' || ch == '\n' then ' ' else ch
  }

  /** `.replace('\t', ' ').replace('\n', ' ')`. */
  function Sanitize(s: string): (r: string)
    ensures |r| == |s|
    ensures '\t' !in r && '\n' !in r
    ensures forall i | 0 <= i < |s| && s[i] != '\t' && s[i] != '\n' :: r[i] == s[i]
  {
    seq(|s|, i requires 0 <= i < |s| => SanitizeChar(s[i]))
  }

  const PhaseKeys: seq<string> := ["phase_1", "phase_2", "phase_3", "phase_4", "phase_5", "phase_6", "phase_7"]

  /** The exported fields, in row order, with their row labels (`phase_name` heads the columns instead). */
  const FieldLabels: seq<(string, string)> := [
    ("activities", "主要アクティビティ"), ("inputs", "インプット"), ("outputs", "アウトプット"), ("tools", "使用ツール"),
    ("stakeholders", "ステークホルダー"), ("kpi", "KPI"), ("risks", "リスク"), ("countermeasures", "対策")
  ]

  const CornerLabel: string := "項目"

  /** `bp_data.get(pk, {})`: an absent phase reads as an empty record; a value that is not a record has no `.get`. */
  function RecordOf(e: Option<Entry>): Option<Fields> {
    match e
    case None => Some(map[])
    case Some(Record(f)) => Some(f)
    case Some(Scalar) => None
  }

  /** The records under `keys`, or nothing when one of them holds a non-record value. */
  function RecordsFor(t: Table, keys: seq<string>): (r: Option<seq<Fields>>)
    ensures r.Some? ==> |r.value| == |keys| && forall i | 0 <= i < |keys| :: RecordOf(Lookup(t.items, keys[i])) == Some(r.value[i])
    ensures r.None? ==> exists i | 0 <= i < |keys| :: Lookup(t.items, keys[i]) == Some(Scalar)
    decreases |keys|
  {
    if keys == [] then Some([])
    else
      match (RecordOf(Lookup(t.items, keys[0])), RecordsFor(t, keys[1..]))
      case (Some(f), Some(rest)) =>
        assert forall i | 1 <= i < |keys| :: keys[i] == keys[1..][i - 1];
        Some([f] + rest)
      case (None, _) => None
      case (_, None) =>
        assert forall i | 1 <= i < |keys| :: keys[i] == keys[1..][i - 1];
        None
  }

  /** `str(phase.get('phase_name', pk))`, optionally with tabs and newlines replaced. */
  function HeaderCell(f: Fields, pk: string, clean: bool): string {
    var name := if "phase_name" in f then f["phase_name"] else pk;
    if clean then Sanitize(name) else name
  }

  function HeaderCells(recs: seq<Fields>, clean: bool): (r: seq<string>)
    requires |recs| == 7
    ensures |r| == 8
  {
    [CornerLabel] + seq(7, i requires 0 <= i < 7 => HeaderCell(recs[i], PhaseKeys[i], clean))
  }

  function RowCells(recs: seq<Fields>, j: int): (r: seq<string>)
    requires |recs| == 7 && 0 <= j < 8
    ensures |r| == 8
  {
    [FieldLabels[j].1] + seq(7, i requires 0 <= i < 7 => Sanitize(Field(recs[i], FieldLabels[j].0)))
  }

  /** The cells of the export: the header row, then one row per field. */
  function Grid(recs: seq<Fields>, clean: bool): (g: seq<seq<string>>)
    requires |recs| == 7
    ensures |g| == 9
  {
    [HeaderCells(recs, clean)] + seq(8, j requires 0 <= j < 8 => RowCells(recs, j))
  }

  function Lines(g: seq<seq<string>>): (r: seq<string>)
    ensures |r| == |g|
  {
    seq(|g|, k requires 0 <= k < |g| => Join(g[k], "\t"))
  }

  function Render(g: seq<seq<string>>): string {
    Join(Lines(g), "\n")
  }

  function Export(t: Table, clean: bool): Option<string> {
    if t.items == [] then Some("データなし")
    else
      match RecordsFor(t, PhaseKeys)
      case None => None
      case Some(recs) => Some(Render(Grid(recs, clean)))
  }

  /** `convert_to_tsv` as written: header cells are not sanitised. `None` stands for the failing `.get`. */
  function ConvertToTsv(t: Table): Option<string> {
    Export(t, false)
  }

  /** The export with header cells sanitised like data cells. */
  function ConvertToTsvClean(t: Table): Option<string> {
    Export(t, true)
  }

  // ---------------------------------------------------------------------------
  // Properties

  lemma CleanGrid(recs: seq<Fields>)
    requires |recs| == 7
    ensures forall k, m | 0 <= k < 9 && 0 <= m < 8 :: '\t' !in Grid(recs, true)[k][m] && '\n' !in Grid(recs, true)[k][m]
  {
    var g := Grid(recs, true);
    forall k, m | 0 <= k < 9 && 0 <= m < 8 ensures '\t' !in g[k][m] && '\n' !in g[k][m] {
      if k == 0 {
        assert g[0] == HeaderCells(recs, true);
      } else {
        assert g[k] == RowCells(recs, k - 1);
      }
    }
  }

  /**
   Reading the clean export back: splitting on newlines gives nine lines,
   and splitting each line on tabs gives exactly its eight cells.
   */
  lemma CleanRoundTrip(recs: seq<Fields>)
    requires |recs| == 7
    ensures var g := Grid(recs, true);
            var lines := SplitOn(Render(g), '\n');
            |lines| == 9 && forall k | 0 <= k < 9 :: SplitOn(lines[k], '\t') == g[k] && |g[k]| == 8
  {
    var g := Grid(recs, true);
    CleanGrid(recs);
    var ls := Lines(g);
    forall k | 0 <= k < 9 ensures '\n' !in ls[k] && SplitOn(ls[k], '\t') == g[k] {
      JoinAvoids(g[k], "\t", '\n');
      SplitJoin(g[k], '\t');
    }
    SplitJoin(ls, '\n');
  }

  /** With the header sanitised, the export of any table with all phases as records reads back cell for cell. */
  lemma ConvertToTsvCleanReadsBack(t: Table)
    requires t.items != [] && RecordsFor(t, PhaseKeys).Some?
    ensures var recs := RecordsFor(t, PhaseKeys).value;
            var lines := SplitOn(ConvertToTsvClean(t).value, '\n');
            |lines| == 9 && forall k | 0 <= k < 9 :: SplitOn(lines[k], '\t') == Grid(recs, true)[k]
  {
    CleanRoundTrip(RecordsFor(t, PhaseKeys).value);
  }

  /** The first line of a rendering whose first line has no newline. */
  lemma FirstLine(g: seq<seq<string>>)
    requires |g| >= 1 && '\n' !in Lines(g)[0]
    ensures SplitOn(Render(g), '\n')[0] == Join(g[0], "\t")
  {
    var ls := Lines(g);
    if |g| == 1 {
      SplitOnClean(ls[0], '\n');
    } else {
      assert Render(g) == ls[0] + "\n" + Join(ls[1..], "\n");
      SplitOnPrefix(ls[0], '\n', Join(ls[1..], "\n"));
    }
  }

  lemma {:induction false} CountInZero(parts: seq<string>, c: char)
    requires forall k | 0 <= k < |parts| :: c !in parts[k]
    ensures CountIn(parts, c) == 0
    decreases |parts|
  {
    if parts != [] {
      CountInZero(parts[1..], c);
    }
  }

  lemma PlainKeys()
    ensures '\t' !in CornerLabel && '\n' !in CornerLabel
    ensures forall i | 0 <= i < 7 :: '\t' !in PhaseKeys[i] && '\n' !in PhaseKeys[i]
  {
  }

  /** Every header cell but the first phase's holds neither tab nor newline. */
  lemma OtherHeaderCells(recs: seq<Fields>, h: seq<string>)
    requires |recs| == 7 && forall i | 1 <= i < 7 :: "phase_name" !in recs[i]
    requires h == HeaderCells(recs, false)
    ensures forall m | 0 <= m < 8 && m != 1 :: '\t' !in h[m] && '\n' !in h[m]
  {
    PlainKeys();
    forall m | 0 <= m < 8 && m != 1 ensures '\t' !in h[m] && '\n' !in h[m] {
      if m > 0 {
        assert h[m] == PhaseKeys[m - 1];
      }
    }
  }

  /** Eight cells, one of which holds a single tab and no other holds a tab or newline, join into nine pieces. */
  lemma OneTabHeader(h: seq<string>)
    requires |h| == 8 && '\n' !in h[1] && multiset(h[1])['\t'] == 1
    requires forall m | 0 <= m < 8 && m != 1 :: '\t' !in h[m] && '\n' !in h[m]
    ensures '\n' !in Join(h, "\t")
    ensures |SplitOn(Join(h, "\t"), '\t')| == 9
  {
    JoinAvoids(h, "\t", '\n');
    SplitCount(Join(h, "\t"), '\t');
    JoinCount(h, '\t');
    CountInZero(h[2..], '\t');
    assert h[1..][1..] == h[2..];
  }

  /**
   As written, a tab inside a phase name reaches the header line: when the
   first phase is named "設計\t評価" and the others are unnamed, the header
   line splits into nine cells while every row has eight, shifting the
   phase names against their columns.
   */
  lemma TabInPhaseNameShiftsHeader(recs: seq<Fields>)
    requires |recs| == 7 && recs[0] == map["phase_name" := "設計\t評価"]
    requires forall i | 1 <= i < 7 :: "phase_name" !in recs[i]
    ensures |SplitOn(SplitOn(Render(Grid(recs, false)), '\n')[0], '\t')| == 9
  {
    var g := Grid(recs, false);
    var h := g[0];
    assert h == HeaderCells(recs, false);
    var named: string := "設計\t評価";
    assert h[1] == named;
    assert '\n' !in named && multiset(named)['\t'] == 1;
    OtherHeaderCells(recs, h);
    OneTabHeader(h);
    FirstLine(g);
  }

  /** The clean export of the same records keeps eight header cells. */
  lemma TabInPhaseNameCleaned(recs: seq<Fields>)
    requires |recs| == 7 && recs[0] == map["phase_name" := "設計\t評価"]
    ensures |SplitOn(SplitOn(Render(Grid(recs, true)), '\n')[0], '\t')| == 8
  {
    CleanRoundTrip(recs);
  }
}
