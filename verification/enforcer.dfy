/**
 The post-generation specificity enforcer. It walks `phase_1` .. `phase_7`
 of a generated table and re-injects representative terms into six fields
 of each phase record whose text fails that field's check, spreading the
 terms by phase affinity and a per-term usage counter.
 */
module Enforcer {
  import opened Wrappers
  import opened Text
  import opened Seqs
  import opened StableSort
  import opened Domain
  import opened PhaseTable
  import opened Allocator

  /** The per-term usage counter of one enforcer run. */
  type Usage = map<string, nat>

  /** `any(t.lower() in text.lower() for t in terms if t)`: a case-insensitive hit of some non-empty term. */
  predicate HasAny(terms: seq<string>, text: string) {
    exists i | 0 <= i < |terms| :: terms[i] != [] && Contains(Lower(text), Lower(terms[i]))
  }

  // ---------------------------------------------------------------------------
  // Term selection

  /** A term used this often is no longer offered. */
  const MaxUses: nat := 3
  const UsagePenalty: real := 0.3
  /** The affinity used for a category or phase missing from the shared table. */
  const DefaultAffinity: real := 0.5

  function PhaseAffinity(c: Category, p: Phase): real {
    ScoreOr(PhaseAffinityMap, c, p, DefaultAffinity)
  }

  function Eligible(u: Usage): string -> bool {
    t => Uses(u, t) < MaxUses
  }

  /** The selection score: affinity minus a penalty per earlier use. */
  function SelectionKey(aff: real, u: Usage): string -> real {
    t => aff - UsagePenalty * (Uses(u, t) as real)
  }

  datatype Selection = Selection(terms: seq<string>, usage: Usage)

  /** Counts one more use of each selected term. */
  function Bump(u: Usage, ts: seq<string>): Usage
    decreases |ts|
  {
    if ts == [] then u else Bump(u[ts[0] := Uses(u, ts[0]) + 1], ts[1..])
  }

  /**
   `select_best_terms`: the `count` best-scoring terms of `avail` that have
   been used fewer than three times, their uses counted.
   */
  function SelectBestTerms(c: Category, p: Phase, avail: seq<string>, count: nat, u: Usage): Selection {
    if avail == [] then Selection([], u)
    else
      var ranked := SortDesc(Filter(avail, Eligible(u)), SelectionKey(PhaseAffinity(c, p), u));
      var selected := Take(ranked, count);
      Selection(selected, Bump(u, selected))
  }

  function InTier(u: Usage, k: nat): string -> bool {
    t => Uses(u, t) == k
  }

  /**
   The reference order of the selection: the unused terms, then the terms
   used once, then those used twice, each group in list order.
   */
  function FewestUsesFirst(avail: seq<string>, u: Usage): seq<string> {
    Filter(avail, InTier(u, 0)) + Filter(avail, InTier(u, 1)) + Filter(avail, InTier(u, 2))
  }

  function UsesOf(u: Usage): string -> nat {
    t => Uses(u, t)
  }

  /** The score falls by the penalty with each use; the tiers split the eligible terms by uses. */
  lemma ScoreLevels(aff: real, u: Usage)
    ensures forall x :: UsesOf(u)(x) < 3 ==>
              SelectionKey(aff, u)(x) == (if UsesOf(u)(x) == 0 then aff else if UsesOf(u)(x) == 1 then aff - 0.3 else aff - 0.6)
    ensures forall x :: InTier(u, 0)(x) == (UsesOf(u)(x) == 0) && InTier(u, 1)(x) == (UsesOf(u)(x) == 1) && InTier(u, 2)(x) == (UsesOf(u)(x) == 2)
    ensures forall x :: Eligible(u)(x) == (UsesOf(u)(x) < 3)
  {
  }

  /**
   Since one call scores every term with the same affinity, the selection is
   the first `count` terms in fewest-uses-first order: phase affinity never
   changes which terms are picked.
   */
  lemma SelectIsFewestUsesFirst(c: Category, p: Phase, avail: seq<string>, count: nat, u: Usage)
    ensures SelectBestTerms(c, p, avail, count, u).terms == Take(FewestUsesFirst(avail, u), count)
    ensures |SelectBestTerms(c, p, avail, count, u).terms| <= count
  {
    if avail != [] {
      EligibleSorted(PhaseAffinity(c, p), avail, u);
    }
  }

  /** Sorting the eligible terms by score lines them up fewest uses first. */
  lemma EligibleSorted(aff: real, avail: seq<string>, u: Usage)
    ensures SortDesc(Filter(avail, Eligible(u)), SelectionKey(aff, u)) == FewestUsesFirst(avail, u)
  {
    var cands := Filter(avail, Eligible(u));
    FilterFacts(avail, Eligible(u));
    ScoreLevels(aff, u);
    SortDescByLevels(cands, SelectionKey(aff, u), UsesOf(u), aff, aff - 0.3, aff - 0.6,
                     InTier(u, 0), InTier(u, 1), InTier(u, 2));
    EligibleTiers(avail, u);
  }

  /** Each tier of the eligible terms is that tier of the whole list. */
  lemma EligibleTiers(avail: seq<string>, u: Usage)
    ensures Filter(Filter(avail, Eligible(u)), InTier(u, 0)) == Filter(avail, InTier(u, 0))
    ensures Filter(Filter(avail, Eligible(u)), InTier(u, 1)) == Filter(avail, InTier(u, 1))
    ensures Filter(Filter(avail, Eligible(u)), InTier(u, 2)) == Filter(avail, InTier(u, 2))
  {
    ScoreLevels(0.0, u);
    FilterNarrow(avail, Eligible(u), InTier(u, 0));
    FilterNarrow(avail, Eligible(u), InTier(u, 1));
    FilterNarrow(avail, Eligible(u), InTier(u, 2));
  }

  lemma {:induction false} BumpCounts(u: Usage, ts: seq<string>, t: string)
    ensures Uses(Bump(u, ts), t) == Uses(u, t) + multiset(ts)[t]
    decreases |ts|
  {
    if ts != [] {
      BumpCounts(u[ts[0] := Uses(u, ts[0]) + 1], ts[1..], t);
      assert ts == [ts[0]] + ts[1..];
    }
  }

  /**
   A selection takes each term at most as often as the list offers it, never
   a term already used three times, and counts exactly the terms it took.
   */
  lemma SelectCounts(c: Category, p: Phase, avail: seq<string>, count: nat, u: Usage, t: string)
    ensures multiset(SelectBestTerms(c, p, avail, count, u).terms)[t] <= if Uses(u, t) < MaxUses then multiset(avail)[t] else 0
    ensures Uses(SelectBestTerms(c, p, avail, count, u).usage, t) == Uses(u, t) + multiset(SelectBestTerms(c, p, avail, count, u).terms)[t]
  {
    if avail != [] {
      var s := SelectBestTerms(c, p, avail, count, u);
      SelectIsFewestUsesFirst(c, p, avail, count, u);
      TakeCount(FewestUsesFirst(avail, u), count, t);
      FewestUsesFirstCount(avail, u, t);
      BumpCounts(u, s.terms, t);
    }
  }

  /** The reference order holds every copy of a term used fewer than three times, and nothing else. */
  lemma FewestUsesFirstCount(avail: seq<string>, u: Usage, t: string)
    ensures multiset(FewestUsesFirst(avail, u))[t] == if Uses(u, t) < MaxUses then multiset(avail)[t] else 0
  {
    FilterCount(avail, InTier(u, 0), t);
    FilterCount(avail, InTier(u, 1), t);
    FilterCount(avail, InTier(u, 2), t);
  }

  /** Every selected term comes from the offered list. */
  lemma SelectedFromList(c: Category, p: Phase, avail: seq<string>, count: nat, u: Usage)
    ensures forall t | t in SelectBestTerms(c, p, avail, count, u).terms :: t in avail
  {
    forall t | t in SelectBestTerms(c, p, avail, count, u).terms
      ensures t in avail
    {
      SelectCounts(c, p, avail, count, u, t);
    }
  }

  /**
   The three-use limit is checked before the selection, not per copy: a list
   holding a term twice that has been used twice hands out both copies, and
   the counter then reads 4.
   */
  lemma DuplicateTermPassesLimit(c: Category, p: Phase, t: string, u: Usage)
    requires Uses(u, t) == 2
    ensures Uses(SelectBestTerms(c, p, [t, t], 2, u).usage, t) == 4
  {
    var sel := SelectBestTerms(c, p, [t, t], 2, u);
    SelectCounts(c, p, [t, t], 2, u, t);
    SelectIsFewestUsesFirst(c, p, [t, t], 2, u);
    RepeatInLastTier(t, u);
    assert Take([t, t], 2) == [t, t];
    assert sel.terms == [t, t];
    assert multiset([t, t])[t] == 2;
  }

  lemma RepeatInLastTier(t: string, u: Usage)
    requires Uses(u, t) == 2
    ensures FewestUsesFirst([t, t], u) == [t, t]
  {
    assert [t, t][1..] == [t] && [t][1..] == [];
    assert InTier(u, 2)(t) && !InTier(u, 0)(t) && !InTier(u, 1)(t);
    assert Filter([t], InTier(u, 2)) == [t];
    assert Filter([t, t], InTier(u, 2)) == [t, t];
    assert Filter([t], InTier(u, 0)) == [];
    assert Filter([t, t], InTier(u, 0)) == [];
    assert Filter([t], InTier(u, 1)) == [];
    assert Filter([t, t], InTier(u, 1)) == [];
  }

  // ---------------------------------------------------------------------------
  // Field repairs

  /**
   How one field of a phase record is checked and repaired. The check passes
   when, for every group, the text mentions a term of some category of the
   group. The repair takes, for each group in turn, the selection of the first
   category of the group that yields any term (Python's `a or b`), joins all
   taken terms with `sep`, and writes them in front of `tailSep` and the old
   text, or in place of the old text when `keepOld` is false.
   */
  datatype FieldRule = FieldRule(name: string, groups: seq<seq<Category>>, count: nat, sep: string, keepOld: bool, tailSep: string)

  /** The six repaired fields, in the order the enforcer visits them. */
  const Rules: seq<FieldRule> := [
    FieldRule("activities", [[Processes], [MaterialsOrProducts, ToolsAndEquipment]], 1, " / ", true, " : "),
    FieldRule("tools", [[ToolsAndEquipment]], 3, ", ", false, ""),
    FieldRule("inputs", [[MaterialsOrProducts, Deliverables]], 1, " / ", true, " / "),
    FieldRule("outputs", [[Deliverables]], 2, " / ", true, " / "),
    FieldRule("kpi", [[IndustrySpecificKpi]], 2, ", ", true, ", "),
    FieldRule("risks", [[CommonFailures]], 2, " / ", true, " / ")
  ]

  function Names(rules: seq<FieldRule>): seq<string> {
    seq(|rules|, i requires 0 <= i < |rules| => rules[i].name)
  }

  /** Some category of the group has a term mentioned in the text. */
  predicate AnyHit(cats: seq<Category>, rep: Info, text: string) {
    exists i | 0 <= i < |cats| :: HasAny(Terms(rep, cats[i]), text)
  }

  /** The field's check. */
  predicate Satisfied(rule: FieldRule, rep: Info, text: string) {
    forall g | 0 <= g < |rule.groups| :: AnyHit(rule.groups[g], rep, text)
  }

  /** The text mentions a term of at least one group. */
  predicate Mentions(rule: FieldRule, rep: Info, text: string) {
    exists g | 0 <= g < |rule.groups| :: AnyHit(rule.groups[g], rep, text)
  }

  /** `select(c1) or select(c2) or ...`: the first non-empty selection of the categories. */
  function SelectFirst(cats: seq<Category>, p: Phase, rep: Info, count: nat, u: Usage): Selection
    decreases |cats|
  {
    if cats == [] then Selection([], u)
    else
      var s := SelectBestTerms(cats[0], p, Terms(rep, cats[0]), count, u);
      if s.terms != [] then s else SelectFirst(cats[1..], p, rep, count, s.usage)
  }

  /** The selections of all groups, one after the other, sharing the counter. */
  function SelectGroups(groups: seq<seq<Category>>, p: Phase, rep: Info, count: nat, u: Usage): Selection
    decreases |groups|
  {
    if groups == [] then Selection([], u)
    else
      var s := SelectFirst(groups[0], p, rep, count, u);
      var rest := SelectGroups(groups[1..], p, rep, count, s.usage);
      Selection(s.terms + rest.terms, rest.usage)
  }

  datatype Repair = Repair(fields: Fields, usage: Usage)

  /** Writes the joined terms and the tail into the field, unless nothing was taken. */
  function Inject(f: Fields, name: string, picked: seq<string>, sep: string, tail: string): Fields {
    if picked == [] then f else f[name := Join(picked, sep) + tail]
  }

  function Tail(rule: FieldRule, prior: string): string {
    if rule.keepOld then rule.tailSep + prior else ""
  }

  /** Checks one field and repairs it when the check fails. */
  function RepairField(rule: FieldRule, f: Fields, p: Phase, rep: Info, u: Usage): Repair {
    var prior := Field(f, rule.name);
    if Satisfied(rule, rep, prior) then Repair(f, u)
    else
      var sel := SelectGroups(rule.groups, p, rep, rule.count, u);
      Repair(Inject(f, rule.name, sel.terms, rule.sep, Tail(rule, prior)), sel.usage)
  }

  function ApplyRules(rules: seq<FieldRule>, f: Fields, p: Phase, rep: Info, u: Usage): Repair
    decreases |rules|
  {
    if rules == [] then Repair(f, u)
    else
      var r := RepairField(rules[0], f, p, rep, u);
      ApplyRules(rules[1..], r.fields, p, rep, r.usage)
  }

  // ---------------------------------------------------------------------------
  // What a repair guarantees

  /** Field `n` is present in both or neither, with the same text. */
  ghost predicate Agrees(f: Fields, g: Fields, n: string) {
    (n in f <==> n in g) && (n in f ==> f[n] == g[n])
  }

  ghost predicate EndsWith(s: string, suffix: string) {
    |suffix| <= |s| && s[|s| - |suffix|..] == suffix
  }

  /** No representative list holds the empty string. */
  ghost predicate NoEmptyTerms(rep: Info) {
    forall c :: [] !in Terms(rep, c)
  }

  /** One group's share of a repair: at most `count` terms, all from a single category of the group. */
  ghost predicate GroupShare(part: seq<string>, cats: seq<Category>, rep: Info, count: nat) {
    && |part| <= count
    && (part == [] || exists i | 0 <= i < |cats| :: forall k | 0 <= k < |part| :: part[k] in Terms(rep, cats[i]))
  }

  /** `parts` holds one share per group, in group order. */
  ghost predicate Shares(parts: seq<seq<string>>, groups: seq<seq<Category>>, rep: Info, count: nat) {
    |parts| == |groups| && forall g | 0 <= g < |groups| :: GroupShare(parts[g], groups[g], rep, count)
  }

  /** The repaired text: the groups' shares joined with the rule's separator, then the tail. */
  ghost predicate RepairShape(rule: FieldRule, rep: Info, prior: string, now: string) {
    exists parts | Shares(parts, rule.groups, rep, rule.count) :: now == Join(Flatten(parts), rule.sep) + Tail(rule, prior)
  }

  /**
   What a repair promises about one field: a field whose check passes is left
   as it was; when the rule keeps the old text, the old text survives as the
   end of the new one; a field that changed now mentions a term of one of
   the rule's groups; a changed field is the joined shares of the groups
   followed by the tail; and a field that fails its check is left as it was
   only when the counter `final`, read after the repair, has every category
   of every group used up.
   */
  ghost predicate FieldRepaired(rule: FieldRule, f: Fields, g: Fields, rep: Info, final: Usage) {
    var prior := Field(f, rule.name);
    var now := Field(g, rule.name);
    (Satisfied(rule, rep, prior) ==> Agrees(f, g, rule.name))
    && (rule.keepOld ==> EndsWith(now, prior))
    && (NoEmptyTerms(rep) && now != prior ==> Mentions(rule, rep, now))
    && (now != prior ==> RepairShape(rule, rep, prior, now))
    && (Repairable(rule) && NoEmptyTerms(rep) && !Satisfied(rule, rep, prior) && now == prior ==> Exhausted(rule.groups, rep, final))
  }

  /** The per-group selections of `SelectGroups`, kept apart. */
  function GroupSelections(groups: seq<seq<Category>>, p: Phase, rep: Info, count: nat, u: Usage): seq<seq<string>>
    decreases |groups|
  {
    if groups == [] then []
    else
      var s := SelectFirst(groups[0], p, rep, count, u);
      [s.terms] + GroupSelections(groups[1..], p, rep, count, s.usage)
  }

  /** A group's selection is a share: at most `count` terms of the first category that yields any. */
  lemma {:induction false} SelectFirstShare(cats: seq<Category>, p: Phase, rep: Info, count: nat, u: Usage)
    ensures GroupShare(SelectFirst(cats, p, rep, count, u).terms, cats, rep, count)
    decreases |cats|
  {
    if cats != [] {
      var s := SelectBestTerms(cats[0], p, Terms(rep, cats[0]), count, u);
      if s.terms != [] {
        SelectionWithin(cats[0], p, Terms(rep, cats[0]), count, u);
        assert SelectFirst(cats, p, rep, count, u).terms == s.terms;
      } else {
        SelectFirstShare(cats[1..], p, rep, count, s.usage);
        var r := SelectFirst(cats[1..], p, rep, count, s.usage).terms;
        assert SelectFirst(cats, p, rep, count, u).terms == r;
        if r != [] {
          var i :| 0 <= i < |cats[1..]| && forall k | 0 <= k < |r| :: r[k] in Terms(rep, cats[1..][i]);
          assert cats[1..][i] == cats[i + 1];
        }
      }
    }
  }

  /** A selection takes at most `count` terms, each from the offered list. */
  lemma SelectionWithin(c: Category, p: Phase, avail: seq<string>, count: nat, u: Usage)
    ensures |SelectBestTerms(c, p, avail, count, u).terms| <= count
    ensures forall k | 0 <= k < |SelectBestTerms(c, p, avail, count, u).terms| :: SelectBestTerms(c, p, avail, count, u).terms[k] in avail
  {
    SelectIsFewestUsesFirst(c, p, avail, count, u);
    SelectedFromList(c, p, avail, count, u);
  }

  /** The terms all groups take are the shares of the groups, one after the other. */
  lemma {:induction false} SelectGroupsShares(groups: seq<seq<Category>>, p: Phase, rep: Info, count: nat, u: Usage)
    ensures Shares(GroupSelections(groups, p, rep, count, u), groups, rep, count)
    ensures Flatten(GroupSelections(groups, p, rep, count, u)) == SelectGroups(groups, p, rep, count, u).terms
    decreases |groups|
  {
    if groups != [] {
      var s := SelectFirst(groups[0], p, rep, count, u);
      var rest := GroupSelections(groups[1..], p, rep, count, s.usage);
      SelectFirstShare(groups[0], p, rep, count, u);
      SelectGroupsShares(groups[1..], p, rep, count, s.usage);
      var parts := [s.terms] + rest;
      assert parts[1..] == rest;
      forall g | 0 <= g < |groups| ensures GroupShare(parts[g], groups[g], rep, count) {
        if g > 0 {
          assert parts[g] == rest[g - 1] && groups[g] == groups[1..][g - 1];
        }
      }
    }
  }

  lemma SelectFirstFrom(cats: seq<Category>, p: Phase, rep: Info, count: nat, u: Usage, t: string)
    requires t in SelectFirst(cats, p, rep, count, u).terms
    ensures exists i | 0 <= i < |cats| :: t in Terms(rep, cats[i])
    decreases |cats|
  {
    var s := SelectBestTerms(cats[0], p, Terms(rep, cats[0]), count, u);
    if s.terms != [] {
      SelectedFromList(cats[0], p, Terms(rep, cats[0]), count, u);
    } else {
      SelectFirstFrom(cats[1..], p, rep, count, s.usage, t);
      var i :| 0 <= i < |cats[1..]| && t in Terms(rep, cats[1..][i]);
      assert cats[1..][i] == cats[i + 1];
    }
  }

  /** A taken term that the text mentions makes the text mention one of the groups. */
  lemma {:induction false} PickedMentions(groups: seq<seq<Category>>, p: Phase, rep: Info, count: nat, u: Usage, t: string, text: string)
    requires t in SelectGroups(groups, p, rep, count, u).terms
    requires t != [] && Contains(Lower(text), Lower(t))
    ensures exists g | 0 <= g < |groups| :: AnyHit(groups[g], rep, text)
    decreases |groups|
  {
    var s := SelectFirst(groups[0], p, rep, count, u);
    if t in s.terms {
      SelectFirstFrom(groups[0], p, rep, count, u, t);
      var i :| 0 <= i < |groups[0]| && t in Terms(rep, groups[0][i]);
      var ts := Terms(rep, groups[0][i]);
      var j :| 0 <= j < |ts| && ts[j] == t;
      assert HasAny(ts, text);
      assert AnyHit(groups[0], rep, text);
    } else {
      PickedMentions(groups[1..], p, rep, count, s.usage, t, text);
      var g :| 0 <= g < |groups[1..]| && AnyHit(groups[1..][g], rep, text);
      assert groups[1..][g] == groups[g + 1];
    }
  }

  lemma InjectedMentions(picked: seq<string>, sep: string, tail: string)
    requires picked != []
    ensures Contains(Lower(Join(picked, sep) + tail), Lower(picked[0]))
  {
    JoinContainsParts(picked, sep);
    ContainsAppend(Join(picked, sep), tail, picked[0]);
    ContainsLower(Join(picked, sep) + tail, picked[0]);
  }

  lemma EndsWithTail(head: string, tailSep: string, prior: string)
    ensures EndsWith(head + (tailSep + prior), prior)
  {
    var s := head + (tailSep + prior);
    assert s[|s| - |prior|..] == prior;
  }

  lemma RepairFieldRepaired(rule: FieldRule, f: Fields, p: Phase, rep: Info, u: Usage)
    ensures FieldRepaired(rule, f, RepairField(rule, f, p, rep, u).fields, rep, RepairField(rule, f, p, rep, u).usage)
  {
    RepairFieldStalls(rule, f, p, rep, u);
    var prior := Field(f, rule.name);
    if !Satisfied(rule, rep, prior) {
      var sel := SelectGroups(rule.groups, p, rep, rule.count, u);
      if sel.terms != [] {
        var now := Join(sel.terms, rule.sep) + Tail(rule, prior);
        assert Field(RepairField(rule, f, p, rep, u).fields, rule.name) == now;
        if rule.keepOld {
          EndsWithTail(Join(sel.terms, rule.sep), rule.tailSep, prior);
        }
        SelectGroupsShares(rule.groups, p, rep, rule.count, u);
        var parts := GroupSelections(rule.groups, p, rep, rule.count, u);
        assert Shares(parts, rule.groups, rep, rule.count) && now == Join(Flatten(parts), rule.sep) + Tail(rule, prior);
        if NoEmptyTerms(rep) {
          var t := sel.terms[0];
          InjectedMentions(sel.terms, rule.sep, Tail(rule, prior));
          SelectGroupsNonEmpty(rule.groups, p, rep, rule.count, u, t);
          PickedMentions(rule.groups, p, rep, rule.count, u, t, now);
        }
      }
    }
  }

  /** No term of the list can still be handed out. */
  ghost predicate NoneEligible(avail: seq<string>, u: Usage) {
    forall t | t in avail :: Uses(u, t) >= MaxUses
  }

  /** Asked for at least one term, a selection comes back empty exactly when no term of the list is still eligible. */
  lemma SelectEmptyIff(c: Category, p: Phase, avail: seq<string>, count: nat, u: Usage)
    requires count >= 1
    ensures SelectBestTerms(c, p, avail, count, u).terms == [] <==> NoneEligible(avail, u)
  {
    var order := FewestUsesFirst(avail, u);
    SelectIsFewestUsesFirst(c, p, avail, count, u);
    if order == [] {
      forall t | t in avail ensures Uses(u, t) >= MaxUses {
        FewestUsesFirstCount(avail, u, t);
      }
    } else {
      FewestUsesFirstCount(avail, u, order[0]);
      assert Take(order, count)[0] == order[0];
    }
  }

  /** No category of the group has a term left to hand out. */
  ghost predicate AllExhausted(cats: seq<Category>, rep: Info, u: Usage) {
    forall i | 0 <= i < |cats| :: NoneEligible(Terms(rep, cats[i]), u)
  }

  /** No category of any group has a term left to hand out. */
  ghost predicate Exhausted(groups: seq<seq<Category>>, rep: Info, u: Usage) {
    forall g | 0 <= g < |groups| :: AllExhausted(groups[g], rep, u)
  }

  /** `select(c1) or select(c2) or ...` comes back empty exactly when every category is used up, and then counts nothing. */
  lemma {:induction false} SelectFirstEmptyIff(cats: seq<Category>, p: Phase, rep: Info, count: nat, u: Usage)
    requires count >= 1
    ensures SelectFirst(cats, p, rep, count, u).terms == [] <==> AllExhausted(cats, rep, u)
    ensures SelectFirst(cats, p, rep, count, u).terms == [] ==> SelectFirst(cats, p, rep, count, u).usage == u
    decreases |cats|
  {
    if cats != [] {
      var s := SelectBestTerms(cats[0], p, Terms(rep, cats[0]), count, u);
      SelectEmptyIff(cats[0], p, Terms(rep, cats[0]), count, u);
      if s.terms == [] {
        SelectionUsage(cats[0], p, Terms(rep, cats[0]), count, u);
        assert s.usage == u;
        SelectFirstEmptyIff(cats[1..], p, rep, count, u);
        assert forall i | 1 <= i < |cats| :: cats[i] == cats[1..][i - 1];
      }
    }
  }

  /** All groups together take nothing exactly when every category of every group is used up. */
  lemma {:induction false} SelectGroupsEmptyIff(groups: seq<seq<Category>>, p: Phase, rep: Info, count: nat, u: Usage)
    requires count >= 1
    ensures SelectGroups(groups, p, rep, count, u).terms == [] <==> Exhausted(groups, rep, u)
    decreases |groups|
  {
    if groups != [] {
      var s := SelectFirst(groups[0], p, rep, count, u);
      SelectFirstEmptyIff(groups[0], p, rep, count, u);
      if s.terms == [] {
        SelectGroupsEmptyIff(groups[1..], p, rep, count, u);
        assert forall g | 1 <= g < |groups| :: groups[g] == groups[1..][g - 1];
      }
    }
  }

  /** The counter `v` has counted at least every use `u` has. */
  ghost predicate Grows(u: Usage, v: Usage) {
    forall t :: Uses(u, t) <= Uses(v, t)
  }

  /** Once every category is used up, it stays used up as the counter grows. */
  lemma ExhaustedGrows(groups: seq<seq<Category>>, rep: Info, u: Usage, v: Usage)
    requires Exhausted(groups, rep, u) && Grows(u, v)
    ensures Exhausted(groups, rep, v)
  {
    forall g, i, t | 0 <= g < |groups| && 0 <= i < |groups[g]| && t in Terms(rep, groups[g][i])
      ensures Uses(v, t) >= MaxUses
    {
      assert NoneEligible(Terms(rep, groups[g][i]), u);
    }
  }

  lemma SelectGrows(c: Category, p: Phase, avail: seq<string>, count: nat, u: Usage)
    ensures Grows(u, SelectBestTerms(c, p, avail, count, u).usage)
  {
    var s := SelectBestTerms(c, p, avail, count, u);
    SelectionUsage(c, p, avail, count, u);
    forall t ensures Uses(u, t) <= Uses(s.usage, t) {
      BumpCounts(u, s.terms, t);
    }
  }

  lemma {:induction false} SelectFirstGrows(cats: seq<Category>, p: Phase, rep: Info, count: nat, u: Usage)
    ensures Grows(u, SelectFirst(cats, p, rep, count, u).usage)
    decreases |cats|
  {
    if cats != [] {
      var s := SelectBestTerms(cats[0], p, Terms(rep, cats[0]), count, u);
      SelectGrows(cats[0], p, Terms(rep, cats[0]), count, u);
      SelectFirstGrows(cats[1..], p, rep, count, s.usage);
    }
  }

  lemma {:induction false} SelectGroupsGrows(groups: seq<seq<Category>>, p: Phase, rep: Info, count: nat, u: Usage)
    ensures Grows(u, SelectGroups(groups, p, rep, count, u).usage)
    decreases |groups|
  {
    if groups != [] {
      var s := SelectFirst(groups[0], p, rep, count, u);
      SelectFirstGrows(groups[0], p, rep, count, u);
      SelectGroupsGrows(groups[1..], p, rep, count, s.usage);
    }
  }

  /** The counter never goes down over one field's repair. */
  lemma RepairFieldGrows(rule: FieldRule, f: Fields, p: Phase, rep: Info, u: Usage)
    ensures Grows(u, RepairField(rule, f, p, rep, u).usage)
  {
    if !Satisfied(rule, rep, Field(f, rule.name)) {
      SelectGroupsGrows(rule.groups, p, rep, rule.count, u);
    }
  }

  lemma {:induction false} ApplyRulesGrows(rules: seq<FieldRule>, f: Fields, p: Phase, rep: Info, u: Usage)
    ensures Grows(u, ApplyRules(rules, f, p, rep, u).usage)
    decreases |rules|
  {
    if rules != [] {
      var r := RepairField(rules[0], f, p, rep, u);
      RepairFieldGrows(rules[0], f, p, rep, u);
      ApplyRulesGrows(rules[1..], r.fields, p, rep, r.usage);
    }
  }

  /**
   A rule whose repair always shows: it asks for at least one term, and it
   either keeps the old text behind the new terms or has a single group, so
   that new terms written over a failing text cannot spell that text again.
   */
  predicate Repairable(rule: FieldRule) {
    rule.count >= 1 && (rule.keepOld || |rule.groups| == 1)
  }

  lemma RulesRepairable()
    ensures forall i | 0 <= i < |Rules| :: Repairable(Rules[i])
  {
  }

  /**
   A field that fails its check is rewritten unless every category of every
   group of its rule is used up: then, and only then, it is left as it was.
   */
  lemma RepairFieldFires(rule: FieldRule, f: Fields, p: Phase, rep: Info, u: Usage)
    ensures var prior := Field(f, rule.name);
            var now := Field(RepairField(rule, f, p, rep, u).fields, rule.name);
            Repairable(rule) && NoEmptyTerms(rep) && !Satisfied(rule, rep, prior) ==>
              (now == prior <==> Exhausted(rule.groups, rep, u))
  {
    var prior := Field(f, rule.name);
    var now := Field(RepairField(rule, f, p, rep, u).fields, rule.name);
    if Repairable(rule) && NoEmptyTerms(rep) && !Satisfied(rule, rep, prior) {
      var sel := SelectGroups(rule.groups, p, rep, rule.count, u);
      SelectGroupsEmptyIff(rule.groups, p, rep, rule.count, u);
      if sel.terms != [] {
        assert now == Join(sel.terms, rule.sep) + Tail(rule, prior);
        SelectGroupsNonEmpty(rule.groups, p, rep, rule.count, u, sel.terms[0]);
        if rule.keepOld {
          assert |Join(sel.terms, rule.sep)| >= |sel.terms[0]| > 0;
        } else {
          InjectedMentions(sel.terms, rule.sep, Tail(rule, prior));
          PickedMentions(rule.groups, p, rep, rule.count, u, sel.terms[0], now);
          assert now != prior;
        }
      }
    }
  }

  /** With a fresh counter nothing is used up: a failing field whose rule offers any term is rewritten. */
  lemma FreshCounterRewrites(rule: FieldRule, f: Fields, p: Phase, rep: Info, g: nat, i: nat, t: string)
    requires g < |rule.groups| && i < |rule.groups[g]| && t in Terms(rep, rule.groups[g][i])
    ensures var prior := Field(f, rule.name);
            Repairable(rule) && NoEmptyTerms(rep) && !Satisfied(rule, rep, prior) ==>
              Field(RepairField(rule, f, p, rep, map[]).fields, rule.name) != prior
  {
    assert Uses(map[], t) == 0;
    assert !NoneEligible(Terms(rep, rule.groups[g][i]), map[]);
    assert !AllExhausted(rule.groups[g], rep, map[]);
    RepairFieldFires(rule, f, p, rep, map[]);
  }

  /**
   The record left as it was does not meet the guarantee: an empty phase
   record fails the activities check, and with one process term on offer
   and a fresh counter that term is not used up.
   */
  lemma UnchangedRecordNotRepaired(f: Fields, rep: Info)
    requires f == map[] && rep == map[Processes := ["x"]]
    ensures !FieldRepaired(Rules[0], f, f, rep, map[])
  {
    var rule := Rules[0];
    assert rule == FieldRule("activities", [[Processes], [MaterialsOrProducts, ToolsAndEquipment]], 1, " / ", true, " : ");
    assert Field(f, "activities") == "";
    assert !AnyHit(rule.groups[0], rep, "") by {
      forall i, k | 0 <= i < |rule.groups[0]| && 0 <= k < |Terms(rep, rule.groups[0][i])|
        ensures !(Terms(rep, rule.groups[0][i])[k] != [] && Contains(Lower(""), Lower(Terms(rep, rule.groups[0][i])[k])))
      {
        NotContains("", Lower(Terms(rep, rule.groups[0][i])[k]));
      }
    }
    assert !Satisfied(rule, rep, "");
    assert rule.groups[0][0] == Processes;
    assert !NoneEligible(Terms(rep, Processes), map[]) by {
      assert "x" in Terms(rep, Processes) && Uses(map[], "x") == 0;
    }
    assert !AllExhausted(rule.groups[0], rep, map[]);
    assert NoEmptyTerms(rep);
  }

  /** A failing field the repair left alone has every category of its rule used up by the counter after the repair. */
  lemma RepairFieldStalls(rule: FieldRule, f: Fields, p: Phase, rep: Info, u: Usage)
    ensures var prior := Field(f, rule.name);
            var r := RepairField(rule, f, p, rep, u);
            Repairable(rule) && NoEmptyTerms(rep) && !Satisfied(rule, rep, prior) && Field(r.fields, rule.name) == prior ==>
              Exhausted(rule.groups, rep, r.usage)
  {
    var prior := Field(f, rule.name);
    var r := RepairField(rule, f, p, rep, u);
    if Repairable(rule) && NoEmptyTerms(rep) && !Satisfied(rule, rep, prior) && Field(r.fields, rule.name) == prior {
      RepairFieldFires(rule, f, p, rep, u);
      RepairFieldGrows(rule, f, p, rep, u);
      ExhaustedGrows(rule.groups, rep, u, r.usage);
    }
  }

  /**
   The tools repair: a failing field is rewritten unless the tools are used
   up, and the new text replaces the old one by at most three tool terms
   joined with ", ".
   */
  lemma ToolsRepairShape(f: Fields, p: Phase, rep: Info, u: Usage)
    ensures var now := Field(RepairField(Rules[1], f, p, rep, u).fields, "tools");
            NoEmptyTerms(rep) && !Satisfied(Rules[1], rep, Field(f, "tools")) && !Exhausted(Rules[1].groups, rep, u) ==> now != Field(f, "tools")
    ensures var now := Field(RepairField(Rules[1], f, p, rep, u).fields, "tools");
            now != Field(f, "tools") ==>
              exists sel :: now == Join(sel, ", ") && |sel| <= 3 && forall k | 0 <= k < |sel| :: sel[k] in Terms(rep, ToolsAndEquipment)
  {
    var rule := Rules[1];
    assert rule == FieldRule("tools", [[ToolsAndEquipment]], 3, ", ", false, "");
    var now := Field(RepairField(rule, f, p, rep, u).fields, "tools");
    SingleGroupShape(rule, f, p, rep, u, ToolsAndEquipment);
    RepairFieldFires(rule, f, p, rep, u);
    if now != Field(f, "tools") {
      var sel :| JoinedFrom(now, sel, rule.sep, rule.count, rep, ToolsAndEquipment);
      assert now == Join(sel, ", ") && |sel| <= 3;
    }
  }

  /** `now` is the `sep`-join of at most `count` terms of category `c`. */
  ghost predicate JoinedFrom(now: string, sel: seq<string>, sep: string, count: nat, rep: Info, c: Category) {
    now == Join(sel, sep) && |sel| <= count && forall k | 0 <= k < |sel| :: sel[k] in Terms(rep, c)
  }

  /** A one-category rule that drops the old text replaces it by at most `count` terms of that category. */
  lemma SingleGroupShape(rule: FieldRule, f: Fields, p: Phase, rep: Info, u: Usage, c: Category)
    requires rule.groups == [[c]] && !rule.keepOld
    ensures var now := Field(RepairField(rule, f, p, rep, u).fields, rule.name);
            now != Field(f, rule.name) ==> exists sel :: JoinedFrom(now, sel, rule.sep, rule.count, rep, c)
  {
    var prior := Field(f, rule.name);
    var now := Field(RepairField(rule, f, p, rep, u).fields, rule.name);
    RepairFieldChanged(rule, f, p, rep, u);
    if now != prior {
      var sel := SelectGroups(rule.groups, p, rep, rule.count, u).terms;
      SelectGroupsOne(c, p, rep, rule.count, u);
      SelectionWithin(c, p, Terms(rep, c), rule.count, u);
      assert JoinedFrom(now, sel, rule.sep, rule.count, rep, c);
    }
  }

  /** A single one-category group takes exactly that category's selection. */
  lemma SelectGroupsOne(c: Category, p: Phase, rep: Info, count: nat, u: Usage)
    ensures SelectGroups([[c]], p, rep, count, u).terms == SelectBestTerms(c, p, Terms(rep, c), count, u).terms
  {
    var s := SelectFirst([c], p, rep, count, u);
    SelectFirstOne(c, p, rep, count, u);
    assert [[c]][0] == [c] && [[c]][1..] == [];
    assert SelectGroups([], p, rep, count, s.usage).terms == [];
    assert SelectGroups([[c]], p, rep, count, u).terms == s.terms + [];
  }

  /**
   The terms a two-group, one-term-each repair takes: one term of category
   `a` for the first group, or none exactly when `a` is used up; then the
   second group's term, counted after the first (`OtherPart`).
   */
  ghost predicate PairParts(rep: Info, u: Usage, a: Category, b: Category, c: Category, first: seq<string>, other: seq<string>) {
    && |first| <= 1
    && (forall k | 0 <= k < |first| :: first[k] in Terms(rep, a))
    && (|first| == 1 <==> !NoneEligible(Terms(rep, a), u))
    && OtherPart(rep, Bump(u, first), b, c, other)
  }

  /**
   The second group's term under counter `v`: exactly one term of `b` while
   `b` has one left; otherwise at most one term of `c`, exactly one while `c`
   has one left.
   */
  ghost predicate OtherPart(rep: Info, v: Usage, b: Category, c: Category, other: seq<string>) {
    if !NoneEligible(Terms(rep, b), v) then
      |other| == 1 && other[0] in Terms(rep, b)
    else
      && |other| <= 1
      && (forall k | 0 <= k < |other| :: other[k] in Terms(rep, c))
      && (|other| == 1 <==> !NoneEligible(Terms(rep, c), v))
  }

  /** The text a two-group repair writes: the two parts joined, then the tail and the old text. */
  ghost predicate PairShape(rule: FieldRule, rep: Info, u: Usage, a: Category, b: Category, c: Category,
                            first: seq<string>, other: seq<string>, prior: string, now: string) {
    now == Join(first + other, rule.sep) + (rule.tailSep + prior) && PairParts(rep, u, a, b, c, first, other)
  }

  /** The repair of a field with one single-category group and one two-category group, one term each. */
  lemma PairRepairShape(rule: FieldRule, f: Fields, p: Phase, rep: Info, u: Usage, a: Category, b: Category, c: Category)
    requires rule.groups == [[a], [b, c]] && rule.count == 1 && rule.keepOld
    ensures var prior := Field(f, rule.name);
            var now := Field(RepairField(rule, f, p, rep, u).fields, rule.name);
            NoEmptyTerms(rep) && !Satisfied(rule, rep, prior) && !Exhausted(rule.groups, rep, u) ==> now != prior
    ensures var prior := Field(f, rule.name);
            var now := Field(RepairField(rule, f, p, rep, u).fields, rule.name);
            now != prior ==> exists first, other :: PairShape(rule, rep, u, a, b, c, first, other, prior, now)
  {
    var prior := Field(f, rule.name);
    var now := Field(RepairField(rule, f, p, rep, u).fields, rule.name);
    RepairFieldFires(rule, f, p, rep, u);
    if now != prior {
      RepairFieldChanged(rule, f, p, rep, u);
      var sa := SelectBestTerms(a, p, Terms(rep, a), 1, u);
      var sb := SelectBestTerms(b, p, Terms(rep, b), 1, sa.usage);
      var sc := SelectBestTerms(c, p, Terms(rep, c), 1, sb.usage);
      var other := if sb.terms != [] then sb.terms else sc.terms;
      PairSelection(rule.groups, p, rep, u, a, b, c);
      PairPartsHold(p, rep, u, a, b, c);
      assert now == Join(sa.terms + other, rule.sep) + (rule.tailSep + prior);
      assert PairShape(rule, rep, u, a, b, c, sa.terms, other, prior, now);
    }
  }

  /** The selections of the two groups meet `PairParts`. */
  lemma PairPartsHold(p: Phase, rep: Info, u: Usage, a: Category, b: Category, c: Category)
    ensures var sa := SelectBestTerms(a, p, Terms(rep, a), 1, u);
            var sb := SelectBestTerms(b, p, Terms(rep, b), 1, sa.usage);
            var sc := SelectBestTerms(c, p, Terms(rep, c), 1, sb.usage);
            PairParts(rep, u, a, b, c, sa.terms, if sb.terms != [] then sb.terms else sc.terms)
  {
    var sa := SelectBestTerms(a, p, Terms(rep, a), 1, u);
    SelectionWithin(a, p, Terms(rep, a), 1, u);
    SelectEmptyIff(a, p, Terms(rep, a), 1, u);
    SelectionUsage(a, p, Terms(rep, a), 1, u);
    FallbackPart(p, rep, sa.usage, b, c);
  }

  /** A selection's counter is the old counter bumped once per term taken. */
  lemma SelectionUsage(c: Category, p: Phase, avail: seq<string>, count: nat, u: Usage)
    ensures SelectBestTerms(c, p, avail, count, u).usage == Bump(u, SelectBestTerms(c, p, avail, count, u).terms)
  {
  }

  /** `select(b) or select(c)` with one term each: a term of `b`, or of `c` when no term of `b` is still eligible. */
  lemma FallbackPart(p: Phase, rep: Info, v: Usage, b: Category, c: Category)
    ensures var sb := SelectBestTerms(b, p, Terms(rep, b), 1, v);
            OtherPart(rep, v, b, c, if sb.terms != [] then sb.terms else SelectBestTerms(c, p, Terms(rep, c), 1, sb.usage).terms)
  {
    var sb := SelectBestTerms(b, p, Terms(rep, b), 1, v);
    if sb.terms != [] {
      assert OtherPart(rep, v, b, c, sb.terms) by {
        SelectionWithin(b, p, Terms(rep, b), 1, v);
        SelectEmptyIff(b, p, Terms(rep, b), 1, v);
      }
    } else {
      assert sb.usage == v by {
        SelectionUsage(b, p, Terms(rep, b), 1, v);
      }
      FallbackToSecond(p, rep, v, b, c);
    }
  }

  /** When `b` yields nothing, the second group's term is `c`'s selection under the same counter. */
  lemma FallbackToSecond(p: Phase, rep: Info, v: Usage, b: Category, c: Category)
    requires SelectBestTerms(b, p, Terms(rep, b), 1, v).terms == []
    ensures OtherPart(rep, v, b, c, SelectBestTerms(c, p, Terms(rep, c), 1, v).terms)
  {
    SelectEmptyIff(b, p, Terms(rep, b), 1, v);
    SelectionWithin(c, p, Terms(rep, c), 1, v);
    SelectEmptyIff(c, p, Terms(rep, c), 1, v);
  }

  /** A field the repair changed holds the joined selection of all groups, then the tail. */
  lemma RepairFieldChanged(rule: FieldRule, f: Fields, p: Phase, rep: Info, u: Usage)
    ensures var prior := Field(f, rule.name);
            var now := Field(RepairField(rule, f, p, rep, u).fields, rule.name);
            now != prior ==> now == Join(SelectGroups(rule.groups, p, rep, rule.count, u).terms, rule.sep) + Tail(rule, prior)
  {
  }

  /** The terms a two-group, one-term-each selection takes. */
  lemma PairSelection(groups: seq<seq<Category>>, p: Phase, rep: Info, u: Usage, a: Category, b: Category, c: Category)
    requires groups == [[a], [b, c]]
    ensures var sa := SelectBestTerms(a, p, Terms(rep, a), 1, u);
            var sb := SelectBestTerms(b, p, Terms(rep, b), 1, sa.usage);
            var sc := SelectBestTerms(c, p, Terms(rep, c), 1, sb.usage);
            SelectGroups(groups, p, rep, 1, u).terms == sa.terms + (if sb.terms != [] then sb.terms else sc.terms)
  {
    var sa := SelectBestTerms(a, p, Terms(rep, a), 1, u);
    var sb := SelectBestTerms(b, p, Terms(rep, b), 1, sa.usage);
    SelectGroupsTwo([a], [b, c], p, rep, 1, u);
    SelectFirstOne(a, p, rep, 1, u);
    SelectFirstTwo(b, c, p, rep, 1, sa.usage);
    SelectFirstOne(c, p, rep, 1, sb.usage);
  }

  lemma SelectFirstOne(a: Category, p: Phase, rep: Info, count: nat, u: Usage)
    ensures SelectFirst([a], p, rep, count, u) == SelectBestTerms(a, p, Terms(rep, a), count, u)
  {
    var s := SelectBestTerms(a, p, Terms(rep, a), count, u);
    assert [a][0] == a && [a][1..] == [];
    if s.terms == [] {
      assert s == Selection([], s.usage);
    }
  }

  lemma SelectFirstTwo(b: Category, c: Category, p: Phase, rep: Info, count: nat, u: Usage)
    ensures var sb := SelectBestTerms(b, p, Terms(rep, b), count, u);
            SelectFirst([b, c], p, rep, count, u) == if sb.terms != [] then sb else SelectFirst([c], p, rep, count, sb.usage)
  {
    assert [b, c][0] == b && [b, c][1..] == [c];
  }

  lemma SelectGroupsTwo(g1: seq<Category>, g2: seq<Category>, p: Phase, rep: Info, count: nat, u: Usage)
    ensures var s1 := SelectFirst(g1, p, rep, count, u);
            SelectGroups([g1, g2], p, rep, count, u).terms == s1.terms + SelectFirst(g2, p, rep, count, s1.usage).terms
  {
    var s1 := SelectFirst(g1, p, rep, count, u);
    var s2 := SelectFirst(g2, p, rep, count, s1.usage);
    var rest := SelectGroups([g2], p, rep, count, s1.usage);
    assert rest.terms == s2.terms by {
      assert [g2][0] == g2 && [g2][1..] == [];
      assert rest.terms == s2.terms + SelectGroups([], p, rep, count, s2.usage).terms;
    }
    assert SelectGroups([g1, g2], p, rep, count, u).terms == s1.terms + rest.terms by {
      assert [g1, g2][0] == g1 && [g1, g2][1..] == [g2];
    }
  }

  /**
   The activities repair: a failing field is rewritten unless processes,
   materials and tools are all used up; the new text is one process term
   (none only when the processes are used up), then one material term, or,
   once the materials are used up, one tool term (none only when the tools
   are used up too), joined with " / " in front of " : " and the old text.
   */
  lemma ActivitiesRepairShape(f: Fields, p: Phase, rep: Info, u: Usage)
    ensures var prior := Field(f, "activities");
            var now := Field(RepairField(Rules[0], f, p, rep, u).fields, "activities");
            NoEmptyTerms(rep) && !Satisfied(Rules[0], rep, prior) && !Exhausted(Rules[0].groups, rep, u) ==> now != prior
    ensures var prior := Field(f, "activities");
            var now := Field(RepairField(Rules[0], f, p, rep, u).fields, "activities");
            now != prior ==>
              exists proc, other :: PairShape(Rules[0], rep, u, Processes, MaterialsOrProducts, ToolsAndEquipment, proc, other, prior, now)
  {
    var rule := Rules[0];
    assert rule == FieldRule("activities", [[Processes], [MaterialsOrProducts, ToolsAndEquipment]], 1, " / ", true, " : ");
    PairRepairShape(rule, f, p, rep, u, Processes, MaterialsOrProducts, ToolsAndEquipment);
  }

  lemma {:induction false} SelectGroupsNonEmpty(groups: seq<seq<Category>>, p: Phase, rep: Info, count: nat, u: Usage, t: string)
    requires NoEmptyTerms(rep) && t in SelectGroups(groups, p, rep, count, u).terms
    ensures t != []
    decreases |groups|
  {
    var s := SelectFirst(groups[0], p, rep, count, u);
    if t in s.terms {
      SelectFirstFrom(groups[0], p, rep, count, u, t);
    } else {
      SelectGroupsNonEmpty(groups[1..], p, rep, count, s.usage, t);
    }
  }

  /** A repair touches no field but its own. */
  lemma RepairFieldOthers(rule: FieldRule, f: Fields, p: Phase, rep: Info, u: Usage, n: string)
    requires n != rule.name
    ensures Agrees(f, RepairField(rule, f, p, rep, u).fields, n)
  {
  }

  // ---------------------------------------------------------------------------
  // The three-use limit

  /** No representative list repeats a term. */
  ghost predicate DistinctLists(rep: Info) {
    forall c :: Distinct(Terms(rep, c))
  }

  /** A selection from a list without repeats keeps a term within the limit. */
  lemma SelectKeepsLimit(c: Category, p: Phase, avail: seq<string>, count: nat, u: Usage, t: string)
    requires Distinct(avail) && Uses(u, t) <= MaxUses
    ensures Uses(SelectBestTerms(c, p, avail, count, u).usage, t) <= MaxUses
  {
    SelectCounts(c, p, avail, count, u, t);
    DistinctCount(avail, t);
  }

  lemma {:induction false} SelectFirstKeepsLimit(cats: seq<Category>, p: Phase, rep: Info, count: nat, u: Usage, t: string)
    requires DistinctLists(rep) && Uses(u, t) <= MaxUses
    ensures Uses(SelectFirst(cats, p, rep, count, u).usage, t) <= MaxUses
    decreases |cats|
  {
    if cats != [] {
      var s := SelectBestTerms(cats[0], p, Terms(rep, cats[0]), count, u);
      SelectKeepsLimit(cats[0], p, Terms(rep, cats[0]), count, u, t);
      SelectFirstKeepsLimit(cats[1..], p, rep, count, s.usage, t);
    }
  }

  lemma {:induction false} SelectGroupsKeepsLimit(groups: seq<seq<Category>>, p: Phase, rep: Info, count: nat, u: Usage, t: string)
    requires DistinctLists(rep) && Uses(u, t) <= MaxUses
    ensures Uses(SelectGroups(groups, p, rep, count, u).usage, t) <= MaxUses
    decreases |groups|
  {
    if groups != [] {
      var s := SelectFirst(groups[0], p, rep, count, u);
      SelectFirstKeepsLimit(groups[0], p, rep, count, u, t);
      SelectGroupsKeepsLimit(groups[1..], p, rep, count, s.usage, t);
    }
  }

  lemma {:induction false} ApplyRulesKeepsLimit(rules: seq<FieldRule>, f: Fields, p: Phase, rep: Info, u: Usage, t: string)
    requires DistinctLists(rep) && Uses(u, t) <= MaxUses
    ensures Uses(ApplyRules(rules, f, p, rep, u).usage, t) <= MaxUses
    decreases |rules|
  {
    if rules != [] {
      var r := RepairField(rules[0], f, p, rep, u);
      if !Satisfied(rules[0], rep, Field(f, rules[0].name)) {
        SelectGroupsKeepsLimit(rules[0].groups, p, rep, rules[0].count, u, t);
      }
      ApplyRulesKeepsLimit(rules[1..], r.fields, p, rep, r.usage, t);
    }
  }

  // ---------------------------------------------------------------------------
  // One phase record

  /** Rules applied later leave the fields they do not name alone. */
  lemma {:induction false} ApplyRulesOthers(rules: seq<FieldRule>, f: Fields, p: Phase, rep: Info, u: Usage, n: string)
    requires n !in Names(rules)
    ensures Agrees(f, ApplyRules(rules, f, p, rep, u).fields, n)
    decreases |rules|
  {
    if rules != [] {
      var r := RepairField(rules[0], f, p, rep, u);
      assert Names(rules)[0] == rules[0].name;
      assert Names(rules[1..]) == Names(rules)[1..];
      RepairFieldOthers(rules[0], f, p, rep, u, n);
      ApplyRulesOthers(rules[1..], r.fields, p, rep, r.usage, n);
    }
  }

  /** The guarantee about a field carries over to a record that agrees on it. */
  lemma FieldRepairedAgrees(rule: FieldRule, f: Fields, f1: Fields, g: Fields, rep: Info, final: Usage)
    requires Agrees(f, f1, rule.name) && FieldRepaired(rule, f1, g, rep, final)
    ensures FieldRepaired(rule, f, g, rep, final)
  {
    assert Field(f, rule.name) == Field(f1, rule.name);
  }

  /** With distinct field names, every rule's guarantee holds of the fully repaired record. */
  lemma {:induction false} ApplyRulesRepaired(rules: seq<FieldRule>, f: Fields, p: Phase, rep: Info, u: Usage, i: int)
    requires Distinct(Names(rules)) && 0 <= i < |rules|
    ensures FieldRepaired(rules[i], f, ApplyRules(rules, f, p, rep, u).fields, rep, ApplyRules(rules, f, p, rep, u).usage)
    decreases |rules|
  {
    var r := RepairField(rules[0], f, p, rep, u);
    var g := ApplyRules(rules, f, p, rep, u).fields;
    var final := ApplyRules(rules, f, p, rep, u).usage;
    assert Names(rules[1..]) == Names(rules)[1..];
    if i == 0 {
      RepairFieldRepaired(rules[0], f, p, rep, u);
      assert rules[0].name !in Names(rules[1..]) by {
        forall k | 0 <= k < |rules[1..]| ensures Names(rules[1..])[k] != rules[0].name {
          assert Names(rules)[k + 1] != Names(rules)[0];
        }
      }
      ApplyRulesOthers(rules[1..], r.fields, p, rep, r.usage, rules[0].name);
      assert Agrees(r.fields, g, rules[0].name);
      ApplyRulesGrows(rules[1..], r.fields, p, rep, r.usage);
      FieldRepairedNext(rules[0], f, r.fields, g, rep, r.usage, final);
    } else {
      assert Distinct(Names(rules[1..])) by {
        forall a, b | 0 <= a < b < |Names(rules[1..])| ensures Names(rules[1..])[a] != Names(rules[1..])[b] {
          assert Names(rules)[a + 1] != Names(rules)[b + 1];
        }
      }
      ApplyRulesRepaired(rules[1..], r.fields, p, rep, r.usage, i - 1);
      assert rules[1..][i - 1] == rules[i];
      assert Names(rules)[i] != Names(rules)[0];
      RepairFieldOthers(rules[0], f, p, rep, u, rules[i].name);
      FieldRepairedAgrees(rules[i], f, r.fields, g, rep, final);
    }
  }

  /** A field repaired in one step and untouched afterwards keeps its guarantee, read against the grown counter. */
  lemma FieldRepairedNext(rule: FieldRule, f: Fields, f1: Fields, g: Fields, rep: Info, u: Usage, final: Usage)
    requires FieldRepaired(rule, f, f1, rep, u) && Agrees(f1, g, rule.name) && Grows(u, final)
    ensures FieldRepaired(rule, f, g, rep, final)
  {
    assert Field(g, rule.name) == Field(f1, rule.name);
    if Repairable(rule) && NoEmptyTerms(rep) && !Satisfied(rule, rep, Field(f, rule.name)) && Field(g, rule.name) == Field(f, rule.name) {
      ExhaustedGrows(rule.groups, rep, u, final);
    }
  }

  lemma RuleNamesDistinct()
    ensures Distinct(Names(Rules))
  {
    var ns := Names(Rules);
    assert ns == ["activities", "tools", "inputs", "outputs", "kpi", "risks"];
  }

  /**
   What the enforcer does to one phase record: each of the six fields keeps
   its rule's guarantee, read against the counter `final`, and every other
   field is left as it was.
   */
  ghost predicate PhaseRepaired(rules: seq<FieldRule>, f: Fields, g: Fields, rep: Info, final: Usage) {
    (forall i | 0 <= i < |rules| :: FieldRepaired(rules[i], f, g, rep, final))
    && (forall n | n !in Names(rules) :: Agrees(f, g, n))
  }

  lemma EnforcePhaseRepaired(rules: seq<FieldRule>, f: Fields, p: Phase, rep: Info, u: Usage)
    requires Distinct(Names(rules))
    ensures PhaseRepaired(rules, f, ApplyRules(rules, f, p, rep, u).fields, rep, ApplyRules(rules, f, p, rep, u).usage)
  {
    forall i | 0 <= i < |rules|
      ensures FieldRepaired(rules[i], f, ApplyRules(rules, f, p, rep, u).fields, rep, ApplyRules(rules, f, p, rep, u).usage)
    {
      ApplyRulesRepaired(rules, f, p, rep, u, i);
    }
    forall n | n !in Names(rules) ensures Agrees(f, ApplyRules(rules, f, p, rep, u).fields, n) {
      ApplyRulesOthers(rules, f, p, rep, u, n);
    }
  }

  /** The guarantee about a phase record still holds against a grown counter. */
  lemma PhaseRepairedGrows(rules: seq<FieldRule>, f: Fields, g: Fields, rep: Info, u: Usage, final: Usage)
    requires PhaseRepaired(rules, f, g, rep, u) && Grows(u, final)
    ensures PhaseRepaired(rules, f, g, rep, final)
  {
    forall i | 0 <= i < |rules| ensures FieldRepaired(rules[i], f, g, rep, final) {
      FieldRepairedNext(rules[i], f, g, g, rep, u, final);
    }
  }

  // ---------------------------------------------------------------------------
  // The whole table

  datatype Run = Run(table: Table, usage: Usage)

  /** The phase loop: each listed phase whose entry is a record is repaired in place. */
  function EnforceFrom(t: Table, rules: seq<FieldRule>, phases: seq<Phase>, rep: Info, u: Usage): (r: Run)
    ensures Keys(r.table.items) == Keys(t.items)
    decreases |phases|
  {
    if phases == [] then Run(t, u)
    else
      var p := phases[0];
      match Lookup(t.items, p.Key())
      case Some(Record(f)) =>
        var s := ApplyRules(rules, f, p, rep, u);
        EnforceFrom(Update(t, p.Key(), Record(s.fields)), rules, phases[1..], rep, s.usage)
      case _ => EnforceFrom(t, rules, phases[1..], rep, u)
  }

  /** `_enforce_specificity`: an empty table is returned as it is; the counter starts empty. */
  function Enforce(t: Table, rep: Info): (r: Table)
    ensures Keys(r.items) == Keys(t.items)
  {
    if t.items == [] then t else EnforceFrom(t, Rules, AllPhases, rep, map[]).table
  }

  function PhaseKeys(phases: seq<Phase>): seq<string> {
    seq(|phases|, i requires 0 <= i < |phases| => phases[i].Key())
  }

  /** A record before is a repaired record after, read against `final`; anything else is unchanged. */
  ghost predicate EntryEnforced(rules: seq<FieldRule>, before: Option<Entry>, after: Option<Entry>, rep: Info, final: Usage) {
    match before
    case Some(Record(f)) => after.Some? && after.value.Record? && PhaseRepaired(rules, f, after.value.fields, rep, final)
    case _ => after == before
  }

  lemma PhaseKeyInjective(p: Phase, q: Phase)
    requires p.Key() == q.Key()
    ensures p == q
  {
    assert p.Key()[6] == q.Key()[6];
  }

  lemma AllPhasesDistinct()
    ensures Distinct(AllPhases)
  {
    forall i, j | 0 <= i < j < |AllPhases| ensures AllPhases[i] != AllPhases[j] {
      PositionOfIndex(i);
      PositionOfIndex(j);
    }
  }

  /** A key the phase list does not name is left alone. */
  lemma {:induction false} EnforceFromOther(t: Table, rules: seq<FieldRule>, phases: seq<Phase>, rep: Info, u: Usage, k: string)
    requires k !in PhaseKeys(phases)
    ensures Lookup(EnforceFrom(t, rules, phases, rep, u).table.items, k) == Lookup(t.items, k)
    decreases |phases|
  {
    if phases != [] {
      var p := phases[0];
      assert PhaseKeys(phases)[0] == p.Key();
      assert PhaseKeys(phases[1..]) == PhaseKeys(phases)[1..];
      match Lookup(t.items, p.Key())
      case Some(Record(f)) =>
        var s := ApplyRules(rules, f, p, rep, u);
        LookupUpdate(t.items, p.Key(), Record(s.fields), k);
        EnforceFromOther(Update(t, p.Key(), Record(s.fields)), rules, phases[1..], rep, s.usage, k);
      case _ =>
        EnforceFromOther(t, rules, phases[1..], rep, u, k);
    }
  }

  /** The entry under a listed phase's key is enforced exactly once. */
  lemma {:induction false} EnforceFromPhase(t: Table, rules: seq<FieldRule>, phases: seq<Phase>, rep: Info, u: Usage, k: string)
    requires Distinct(Names(rules)) && Distinct(phases) && k in PhaseKeys(phases)
    ensures EntryEnforced(rules, Lookup(t.items, k), Lookup(EnforceFrom(t, rules, phases, rep, u).table.items, k), rep, EnforceFrom(t, rules, phases, rep, u).usage)
    decreases |phases|
  {
    var p := phases[0];
    assert PhaseKeys(phases)[0] == p.Key();
    assert PhaseKeys(phases[1..]) == PhaseKeys(phases)[1..];
    var rest := phases[1..];
    assert Distinct(rest) by {
      forall a, b | 0 <= a < b < |rest| ensures rest[a] != rest[b] {
        assert rest[a] == phases[a + 1] && rest[b] == phases[b + 1];
      }
    }
    if k == p.Key() {
      assert k !in PhaseKeys(rest) by {
        forall j | 0 <= j < |rest| ensures PhaseKeys(rest)[j] != k {
          assert rest[j] == phases[j + 1];
          if rest[j].Key() == k {
            PhaseKeyInjective(rest[j], p);
          }
        }
      }
    }
    match Lookup(t.items, p.Key())
    case Some(Record(f)) =>
      var s := ApplyRules(rules, f, p, rep, u);
      var t1 := Update(t, p.Key(), Record(s.fields));
      LookupUpdate(t.items, p.Key(), Record(s.fields), k);
      if k == p.Key() {
        EnforcePhaseRepaired(rules, f, p, rep, u);
        EnforceFromOther(t1, rules, rest, rep, s.usage, k);
        EnforceFromGrows(t1, rules, rest, rep, s.usage);
        PhaseRepairedGrows(rules, f, s.fields, rep, s.usage, EnforceFrom(t1, rules, rest, rep, s.usage).usage);
      } else {
        EnforceFromPhase(t1, rules, rest, rep, s.usage, k);
      }
    case _ =>
      if k == p.Key() {
        EnforceFromOther(t, rules, rest, rep, u, k);
      } else {
        EnforceFromPhase(t, rules, rest, rep, u, k);
      }
  }

  /**
   The enforcer's promise about the table: the keys and their order are kept,
   the record under each `phase_k` key is repaired field by field, so that a
   field still failing and left as it was has its rule's categories used up
   by the end of the run, and every other entry is left as it was.
   */
  lemma EnforceEntries(t: Table, rep: Info, k: string)
    ensures k in PhaseKeys(AllPhases) ==>
              EntryEnforced(Rules, Lookup(t.items, k), Lookup(Enforce(t, rep).items, k), rep, EnforceFrom(t, Rules, AllPhases, rep, map[]).usage)
    ensures k !in PhaseKeys(AllPhases) ==> Lookup(Enforce(t, rep).items, k) == Lookup(t.items, k)
  {
    if t.items != [] {
      if k in PhaseKeys(AllPhases) {
        AllPhasesDistinct();
        RuleNamesDistinct();
        EnforceFromPhase(t, Rules, AllPhases, rep, map[], k);
      } else {
        EnforceFromOther(t, Rules, AllPhases, rep, map[], k);
      }
    }
  }

  /** The counter never goes down over the phase loop. */
  lemma {:induction false} EnforceFromGrows(t: Table, rules: seq<FieldRule>, phases: seq<Phase>, rep: Info, u: Usage)
    ensures Grows(u, EnforceFrom(t, rules, phases, rep, u).usage)
    decreases |phases|
  {
    if phases != [] {
      var p := phases[0];
      match Lookup(t.items, p.Key())
      case Some(Record(f)) =>
        var s := ApplyRules(rules, f, p, rep, u);
        ApplyRulesGrows(rules, f, p, rep, u);
        EnforceFromGrows(Update(t, p.Key(), Record(s.fields)), rules, phases[1..], rep, s.usage);
      case _ =>
        EnforceFromGrows(t, rules, phases[1..], rep, u);
    }
  }

  lemma {:induction false} EnforceFromKeepsLimit(t: Table, rules: seq<FieldRule>, phases: seq<Phase>, rep: Info, u: Usage, x: string)
    requires DistinctLists(rep) && Uses(u, x) <= MaxUses
    ensures Uses(EnforceFrom(t, rules, phases, rep, u).usage, x) <= MaxUses
    decreases |phases|
  {
    if phases != [] {
      var p := phases[0];
      match Lookup(t.items, p.Key())
      case Some(Record(f)) =>
        var s := ApplyRules(rules, f, p, rep, u);
        ApplyRulesKeepsLimit(rules, f, p, rep, u, x);
        EnforceFromKeepsLimit(Update(t, p.Key(), Record(s.fields)), rules, phases[1..], rep, s.usage, x);
      case _ =>
        EnforceFromKeepsLimit(t, rules, phases[1..], rep, u, x);
    }
  }

  /**
   When no representative list repeats a term, no term is handed out more
   than three times in one run; `DuplicateTermPassesLimit` shows the bound
   fails without that condition.
   */
  lemma EnforceKeepsLimit(t: Table, rep: Info, x: string)
    requires DistinctLists(rep)
    ensures Uses(EnforceFrom(t, Rules, AllPhases, rep, map[]).usage, x) <= MaxUses
  {
    EnforceFromKeepsLimit(t, Rules, AllPhases, rep, map[], x);
  }
}
