/**
  The compliance rule lifecycle and the resolution of the rules in effect
  (adherence-compliance-service/src/compliance/compliance-rule.service.ts and
  resolve-effective-rules.ts).

  Each transaction is one step.  Dates are day numbers, instants are milliseconds; the
  source's ISO date strings compare as dates do.
 */
module ComplianceRules {
  import opened Basics

  datatype RuleType = OvertimeThreshold | RestPeriodMinimum | MaxConsecutiveDays | BreakRequirement | UnionRule
  datatype Status = PendingReview | Active | Superseded | Rejected

  datatype Rule = Rule(
    id: string, tenant: Option<string>, jurisdiction: string, ruleType: RuleType,
    effectiveFrom: int, effectiveTo: Option<int>, version: int, citation: string,
    status: Status, activationDelayUntil: Option<int>)

  // ----- Resolution -----

  function IsoDate(instant: int): int {
    instant / 86_400_000
  }

  predicate InForce(r: Rule, asOf: int) {
    && (r.status.Active? || r.status.Superseded?)
    && r.effectiveFrom <= IsoDate(asOf)
    && (r.effectiveTo.None? || r.effectiveTo.value >= IsoDate(asOf))
    && (r.activationDelayUntil.None? || r.activationDelayUntil.value <= asOf)
  }

  /** `isMoreSpecific` */
  predicate Beats(candidate: Rule, current: Rule) {
    if candidate.tenant.Some? != current.tenant.Some? then candidate.tenant.Some?
    else candidate.version > current.version
  }

  predicate Candidate(r: Rule, asOf: int, t: RuleType) {
    InForce(r, asOf) && r.ruleType == t
  }

  function Better(current: Option<Rule>, r: Rule, asOf: int, t: RuleType): Option<Rule> {
    if Candidate(r, asOf, t) && (current.None? || Beats(r, current.value)) then Some(r) else current
  }

  /** What the loop over the rules ends up holding for one rule type. */
  function Winner(rules: seq<Rule>, asOf: int, t: RuleType): Option<Rule> {
    if rules == [] then None
    else Better(Winner(rules[..|rules| - 1], asOf, t), rules[|rules| - 1], asOf, t)
  }

  lemma WinnerGrows(rules: seq<Rule>, r: Rule, asOf: int, t: RuleType)
    ensures Winner(rules + [r], asOf, t) == Better(Winner(rules, asOf, t), r, asOf, t)
  {
    assert (rules + [r])[..|rules|] == rules;
  }

  /** The rule is in effect at an instant: reviewed, within its dates to the end of the last day, past its delay. */
  ghost predicate AppliesAt(r: Rule, asOf: int) {
    && (r.status == Active || r.status == Superseded)
    && r.effectiveFrom * 86_400_000 <= asOf
    && (r.effectiveTo.Some? ==> asOf < (r.effectiveTo.value + 1) * 86_400_000)
    && (r.activationDelayUntil.Some? ==> r.activationDelayUntil.value <= asOf)
  }

  lemma AppliesInForce(r: Rule, asOf: int)
    ensures InForce(r, asOf) <==> AppliesAt(r, asOf)
  {
  }

  /** `a` comes before `b`: the tenant's rules before the platform's, then the higher version. */
  ghost predicate Precedes(a: Rule, b: Rule) {
    (a.tenant.Some? && b.tenant.None?) || (a.tenant.Some? == b.tenant.Some? && a.version > b.version)
  }

  lemma ResolvedApplies(rules: seq<Rule>, asOf: int, t: RuleType)
    ensures match Winner(rules, asOf, t)
            case Some(w) =>
              && w in rules && w.ruleType == t && AppliesAt(w, asOf)
              && forall r :: r in rules && r.ruleType == t && AppliesAt(r, asOf) ==> !Precedes(r, w)
            case None => forall r :: r in rules && r.ruleType == t ==> !AppliesAt(r, asOf)
  {
    WinnerIsBest(rules, asOf, t);
    forall r: Rule
      ensures InForce(r, asOf) <==> AppliesAt(r, asOf)
    {
      AppliesInForce(r, asOf);
    }
  }

  /**
    What the loop returns, said of the rows themselves: under each type a row in effect that
    no row in effect of that type precedes, and under every type that has a row in effect.
   */
  method ResolveEffectiveRules(rules: seq<Rule>, asOf: int) returns (byRuleType: map<RuleType, Rule>)
    ensures forall t :: t in byRuleType ==>
              && byRuleType[t] in rules && byRuleType[t].ruleType == t && AppliesAt(byRuleType[t], asOf)
              && forall r :: r in rules && r.ruleType == t && AppliesAt(r, asOf) ==> !Precedes(r, byRuleType[t])
    ensures forall r :: r in rules && AppliesAt(r, asOf) ==> r.ruleType in byRuleType
    ensures forall t :: t in byRuleType <==> Winner(rules, asOf, t).Some?
    ensures forall t :: t in byRuleType ==> Winner(rules, asOf, t) == Some(byRuleType[t])
  {
    byRuleType := map[];
    for i := 0 to |rules|
      invariant forall t :: t in byRuleType <==> Winner(rules[..i], asOf, t).Some?
      invariant forall t :: t in byRuleType ==> Winner(rules[..i], asOf, t) == Some(byRuleType[t])
    {
      var rule := rules[i];
      assert rules[..i + 1][..i] == rules[..i];
      if InForce(rule, asOf) {
        if rule.ruleType !in byRuleType || Beats(rule, byRuleType[rule.ruleType]) {
          byRuleType := byRuleType[rule.ruleType := rule];
        }
      }
    }
    assert rules[..|rules|] == rules;
    forall t: RuleType
      ensures t in byRuleType ==>
                && byRuleType[t] in rules && byRuleType[t].ruleType == t && AppliesAt(byRuleType[t], asOf)
                && forall r :: r in rules && r.ruleType == t && AppliesAt(r, asOf) ==> !Precedes(r, byRuleType[t])
      ensures t !in byRuleType ==> forall r :: r in rules && r.ruleType == t ==> !AppliesAt(r, asOf)
    {
      ResolvedApplies(rules, asOf, t);
    }
  }

  /** A candidate that no candidate beats. */
  ghost predicate IsBest(rules: seq<Rule>, asOf: int, t: RuleType, w: Rule) {
    && w in rules && Candidate(w, asOf, t)
    && forall c :: c in rules && Candidate(c, asOf, t) ==> !Beats(c, w)
  }

  lemma {:induction false} WinnerIsBest(rules: seq<Rule>, asOf: int, t: RuleType)
    ensures match Winner(rules, asOf, t)
            case Some(w) => IsBest(rules, asOf, t, w)
            case None => forall c :: c in rules ==> !Candidate(c, asOf, t)
  {
    if rules != [] {
      var n := |rules| - 1;
      WinnerIsBest(rules[..n], asOf, t);
      assert rules == rules[..n] + [rules[n]];
    }
  }

  /** The rows of one rule type have different versions, the tenant's among themselves and the platform's. */
  ghost predicate DistinctVersions(rules: seq<Rule>, t: RuleType) {
    forall a, b ::
      (a in rules && b in rules && a.ruleType == t && b.ruleType == t
       && a.tenant.Some? == b.tenant.Some? && a.version == b.version) ==> a == b
  }

  /** With distinct versions the best candidate is the one resolved; so the order of the list is irrelevant. */
  lemma BestIsResolved(rules: seq<Rule>, asOf: int, t: RuleType, w: Rule)
    requires DistinctVersions(rules, t)
    ensures Winner(rules, asOf, t) == Some(w) <==> IsBest(rules, asOf, t, w)
  {
    WinnerIsBest(rules, asOf, t);
  }

  lemma ListOrderIsIrrelevant(rules: seq<Rule>, reordered: seq<Rule>, asOf: int, t: RuleType)
    requires DistinctVersions(rules, t)
    requires forall r :: r in rules <==> r in reordered
    ensures Winner(rules, asOf, t) == Winner(reordered, asOf, t)
  {
    WinnerIsBest(rules, asOf, t);
    WinnerIsBest(reordered, asOf, t);
    if Winner(rules, asOf, t).Some? {
      BestIsResolved(rules, asOf, t, Winner(rules, asOf, t).value);
      BestIsResolved(reordered, asOf, t, Winner(rules, asOf, t).value);
    }
  }

  function OfType(rules: seq<Rule>, t: RuleType): seq<Rule> {
    if rules == [] then []
    else
      var n := |rules| - 1;
      OfType(rules[..n], t) + if rules[n].ruleType == t then [rules[n]] else []
  }

  /** `getActiveRule` filters by type first; it agrees with picking that type out of the full resolution. */
  lemma {:induction false} SingleLookupAgrees(rules: seq<Rule>, asOf: int, t: RuleType)
    ensures Winner(OfType(rules, t), asOf, t) == Winner(rules, asOf, t)
  {
    if rules != [] {
      var n := |rules| - 1;
      SingleLookupAgrees(rules[..n], asOf, t);
      var rest := OfType(rules[..n], t);
      if rules[n].ruleType == t {
        WinnerGrows(rest, rules[n], asOf, t);
      } else {
        assert OfType(rules, t) == rest;
      }
    }
  }

  // ----- The tables -----

  datatype Preview = Preview(ruleId: string, noncompliant: nat, generatedAt: int)

  /** What an activation was based on: how many previews there were, the count used, and the note given. */
  datatype Activation = Activation(ruleId: string, previewsSeen: nat, noncompliant: nat, justification: Option<string>)

  datatype State = State(rules: seq<Rule>, previews: seq<Preview>, activations: seq<Activation>)

  datatype Input = Input(
    jurisdiction: string, ruleType: RuleType, effectiveFrom: int, effectiveTo: Option<int>, citation: string)

  datatype Outcome =
    | Done(rule: Rule)
    | CitationRequired | InvalidEffectiveRange
    | RuleNotFound | RuleNotOwned | NotPendingReview(status: Status)
    | ImpactPreviewRequired | JustificationRequired

  predicate IsSpace(c: char) {
    c == ' ' || '\t' <= c <= '\r' || c == '\U{00A0}' || c == '\U{FEFF}'
  }

  /** `text.trim()` */
  function Trim(text: string): string {
    if text == "" then ""
    else if IsSpace(text[0]) then Trim(text[1..])
    else if IsSpace(text[|text| - 1]) then Trim(text[..|text| - 1])
    else text
  }

  predicate Blank(text: string) {
    Trim(text) == ""
  }

  /** `trimmed` is the text without the spaces at its two ends. */
  ghost predicate IsTrimmed(text: string, trimmed: string) {
    exists lo, hi :: 0 <= lo <= hi <= |text| && IsCore(text, lo, hi) && trimmed == text[lo..hi]
  }

  ghost predicate IsCore(text: string, lo: int, hi: int)
    requires 0 <= lo <= hi <= |text|
  {
    && (forall i :: 0 <= i < lo || hi <= i < |text| ==> IsSpace(text[i]))
    && (lo < hi ==> !IsSpace(text[lo]) && !IsSpace(text[hi - 1]))
  }

  lemma {:induction false} TrimIsExact(text: string) returns (lo: nat, hi: nat)
    ensures lo <= hi <= |text| && IsCore(text, lo, hi) && Trim(text) == text[lo..hi]
    decreases |text|
  {
    if text == "" {
      lo, hi := 0, 0;
    } else if IsSpace(text[0]) {
      lo, hi := TrimIsExact(text[1..]);
      CoreFurtherIn(text, lo, hi);
      lo, hi := lo + 1, hi + 1;
    } else if IsSpace(text[|text| - 1]) {
      var rest := text[..|text| - 1];
      lo, hi := TrimIsExact(rest);
      assert forall i :: 0 <= i < |rest| ==> text[i] == rest[i];
      assert text[lo..hi] == rest[lo..hi];
    } else {
      lo, hi := 0, |text|;
    }
  }

  lemma CoreFurtherIn(text: string, lo: nat, hi: nat)
    requires text != "" && IsSpace(text[0]) && lo <= hi < |text| && IsCore(text[1..], lo, hi)
    ensures IsCore(text, lo + 1, hi + 1) && text[lo + 1..hi + 1] == text[1..][lo..hi]
  {
    forall i | 0 <= i < lo + 1 || hi + 1 <= i < |text|
      ensures IsSpace(text[i])
    {
      if i > 0 {
        assert IsSpace(text[1..][i - 1]);
      }
    }
  }

  const SPACES := " \t\n\U{000B}\U{000C}\r\U{00A0}\U{FEFF}"

  lemma SpacesAreListed(c: char)
    ensures IsSpace(c) <==> c in SPACES
  {
  }

  /** A text is blank exactly if it is all spaces. */
  lemma BlankIsAllSpaces(text: string)
    ensures Blank(text) <==> forall i :: 0 <= i < |text| ==> text[i] in SPACES
    ensures IsTrimmed(text, Trim(text))
  {
    forall c: char
      ensures IsSpace(c) <==> c in SPACES
    {
      SpacesAreListed(c);
    }
    var lo, hi := TrimIsExact(text);
  }

  predicate InScope(r: Rule, tenant: string, jurisdiction: string, t: RuleType) {
    r.tenant == Some(tenant) && r.jurisdiction == jurisdiction && r.ruleType == t
  }

  /** `COALESCE(MAX(version), 0)` over a scope. */
  function MaxVersion(rules: seq<Rule>, tenant: string, jurisdiction: string, t: RuleType): int {
    if rules == [] then 0
    else
      var n := |rules| - 1;
      var m := MaxVersion(rules[..n], tenant, jurisdiction, t);
      if InScope(rules[n], tenant, jurisdiction, t) && rules[n].version > m then rules[n].version else m
  }

  /** The row a transaction of the tenant finds: its own and the platform's are visible. */
  function Find(rules: seq<Rule>, tenant: string, id: string): Option<Rule> {
    if rules == [] then None
    else if rules[0].id == id && (rules[0].tenant == Some(tenant) || rules[0].tenant.None?) then Some(rules[0])
    else Find(rules[1..], tenant, id)
  }

  function LatestPreview(previews: seq<Preview>, ruleId: string): Option<Preview> {
    if previews == [] then None
    else
      var n := |previews| - 1;
      var latest := LatestPreview(previews[..n], ruleId);
      if previews[n].ruleId == ruleId && (latest.None? || previews[n].generatedAt >= latest.value.generatedAt)
      then Some(previews[n]) else latest
  }

  function NewRule(rules: seq<Rule>, tenant: string, input: Input, id: string): Rule {
    Rule(id, Some(tenant), input.jurisdiction, input.ruleType, input.effectiveFrom, input.effectiveTo,
         MaxVersion(rules, tenant, input.jurisdiction, input.ruleType) + 1, Trim(input.citation), PendingReview, None)
  }

  /** The two UPDATE statements of `activateRule`, in order, on one row. */
  function RowAfterActivation(r: Rule, tenant: string, existing: Rule, effectiveAt: Option<int>): Rule {
    var r := if InScope(r, tenant, existing.jurisdiction, existing.ruleType) && r.status.Active?
             then r.(status := Superseded) else r;
    if r.id == existing.id then r.(status := Active, activationDelayUntil := effectiveAt) else r
  }

  function RulesAfterActivation(rules: seq<Rule>, tenant: string, existing: Rule, effectiveAt: Option<int>): seq<Rule> {
    seq(|rules|, i requires 0 <= i < |rules| => RowAfterActivation(rules[i], tenant, existing, effectiveAt))
  }

  // ----- The transactions on values -----

  predicate CreateAccepted(input: Input) {
    !Blank(input.citation) && (input.effectiveTo.Some? ==> input.effectiveTo.value >= input.effectiveFrom)
  }

  function AfterCreate(s: State, tenant: string, input: Input, id: string): State {
    if CreateAccepted(input) then s.(rules := s.rules + [NewRule(s.rules, tenant, input, id)]) else s
  }

  function AfterPreview(s: State, tenant: string, ruleId: string, noncompliant: nat, at: int): State {
    var existing := Find(s.rules, tenant, ruleId);
    if existing.Some? && existing.value.tenant == Some(tenant)
    then s.(previews := s.previews + [Preview(ruleId, noncompliant, at)]) else s
  }

  predicate ActivateAccepted(s: State, tenant: string, ruleId: string, justification: Option<string>) {
    var existing, latest := Find(s.rules, tenant, ruleId), LatestPreview(s.previews, ruleId);
    && existing.Some? && existing.value.tenant == Some(tenant) && existing.value.status.PendingReview?
    && latest.Some?
    && (latest.value.noncompliant > 0 ==> justification.Some? && !Blank(justification.value))
  }

  function AfterActivate(
    s: State, tenant: string, ruleId: string, effectiveAt: Option<int>, justification: Option<string>): State
  {
    if !ActivateAccepted(s, tenant, ruleId, justification) then s
    else
      State(RulesAfterActivation(s.rules, tenant, Find(s.rules, tenant, ruleId).value, effectiveAt), s.previews,
            s.activations
            + [Activation(ruleId, |s.previews|, LatestPreview(s.previews, ruleId).value.noncompliant, justification)])
  }

  // ----- The service -----

  ghost predicate InTheScope(r: Rule, tenant: string, input: Input) {
    r.tenant == Some(tenant) && r.jurisdiction == input.jurisdiction && r.ruleType == input.ruleType
  }

  class RuleService {
    var rules: seq<Rule>
    var previews: seq<Preview>
    var activations: seq<Activation>

    function Snapshot(): State
      reads this
    {
      State(rules, previews, activations)
    }

    /** The platform's default rules are seeded by migrations. */
    constructor (platform: seq<Rule>)
      ensures Snapshot() == State(platform, [], [])
    {
      rules, previews, activations := platform, [], [];
    }

    method CreateRule(tenant: string, input: Input, id: string) returns (outcome: Outcome)
      modifies this
      ensures Snapshot() == AfterCreate(old(Snapshot()), tenant, input, id)
      ensures outcome.CitationRequired? <==> Blank(input.citation)
      ensures outcome.InvalidEffectiveRange? <==>
              !Blank(input.citation) && input.effectiveTo.Some? && input.effectiveTo.value < input.effectiveFrom
      ensures outcome.Done? <==> CreateAccepted(input)
      ensures outcome.CitationRequired? <==> forall i :: 0 <= i < |input.citation| ==> IsSpace(input.citation[i])
      ensures outcome.Done? ==> rules == old(rules) + [outcome.rule] && outcome.rule.status.PendingReview?
      ensures outcome.Done? ==>
                && IsTrimmed(input.citation, outcome.rule.citation)
                && outcome.rule.(version := 0, citation := "") ==
                   Rule(id, Some(tenant), input.jurisdiction, input.ruleType, input.effectiveFrom, input.effectiveTo,
                        0, "", PendingReview, None)
      ensures outcome.Done? ==>
                forall r :: r in old(rules) && InTheScope(r, tenant, input) ==> r.version < outcome.rule.version
    {
      BlankIsAllSpaces(input.citation);
      MaxIsHighest(rules, tenant, input.jurisdiction, input.ruleType);
      var citation := Trim(input.citation);
      if |citation| == 0 {
        return CitationRequired;
      }
      if input.effectiveTo.Some? && input.effectiveTo.value < input.effectiveFrom {
        return InvalidEffectiveRange;
      }
      var version := MaxVersion(rules, tenant, input.jurisdiction, input.ruleType) + 1;
      var rule := Rule(id, Some(tenant), input.jurisdiction, input.ruleType, input.effectiveFrom, input.effectiveTo,
                       version, citation, PendingReview, None);
      rules := rules + [rule];
      return Done(rule);
    }

    method ActivateRule(tenant: string, ruleId: string, effectiveAt: Option<int>, justification: Option<string>)
      returns (outcome: Outcome)
      modifies this
      ensures Snapshot() == AfterActivate(old(Snapshot()), tenant, ruleId, effectiveAt, justification)
      ensures outcome.Done? <==> ActivateAccepted(old(Snapshot()), tenant, ruleId, justification)
      ensures outcome.RuleNotFound? <==> Find(old(rules), tenant, ruleId).None?
      ensures outcome.RuleNotOwned? <==>
              Find(old(rules), tenant, ruleId).Some? && Find(old(rules), tenant, ruleId).value.tenant != Some(tenant)
      ensures outcome.RuleNotFound? <==>
              forall r :: r in old(rules) && r.id == ruleId ==> r.tenant.Some? && r.tenant != Some(tenant)
      ensures outcome.ImpactPreviewRequired? ==> forall p :: p in old(previews) ==> p.ruleId != ruleId
      ensures outcome.JustificationRequired? ==>
                && (justification.None? || Blank(justification.value))
                && exists p :: IsNewestPreview(old(previews), ruleId, p) && p.noncompliant > 0
      ensures outcome.Done? ==> outcome.rule.status.Active? && outcome.rule.activationDelayUntil == effectiveAt
    {
      FindIsExact(rules, tenant, ruleId);
      if LatestPreview(previews, ruleId).None? {
        NoPreview(previews, ruleId);
      } else {
        LatestPreviewIsARow(previews, ruleId);
        assert IsNewestPreview(previews, ruleId, LatestPreview(previews, ruleId).value);
      }
      var found := Find(rules, tenant, ruleId);
      if found.None? {
        return RuleNotFound;
      }
      var existing := found.value;
      if existing.tenant != Some(tenant) {
        return RuleNotOwned;
      }
      if existing.status != PendingReview {
        return NotPendingReview(existing.status);
      }
      var latest := LatestPreview(previews, ruleId);
      if latest.None? {
        return ImpactPreviewRequired;
      }
      var flagged := latest.value.noncompliant;
      if flagged > 0 && (justification.None? || Blank(justification.value)) {
        return JustificationRequired;
      }
      rules := RulesAfterActivation(rules, tenant, existing, effectiveAt);
      activations := activations + [Activation(ruleId, |previews|, flagged, justification)];
      return Done(existing.(status := Active, activationDelayUntil := effectiveAt));
    }
  }

  // ----- Runs -----

  datatype Event =
    | Create(tenant: string, input: Input, id: string)
    | RecordPreview(tenant: string, ruleId: string, noncompliant: nat, at: int)
    | Activate(tenant: string, ruleId: string, effectiveAt: Option<int>, justification: Option<string>)

  /** `id` is fresh: it is a random UUID. */
  ghost predicate Enabled(s: State, e: Event) {
    e.Create? ==> forall i :: 0 <= i < |s.rules| ==> s.rules[i].id != e.id
  }

  function Step(s: State, e: Event): State {
    match e
    case Create(tenant, input, id) => AfterCreate(s, tenant, input, id)
    case RecordPreview(tenant, ruleId, noncompliant, at) => AfterPreview(s, tenant, ruleId, noncompliant, at)
    case Activate(tenant, ruleId, effectiveAt, justification) =>
      AfterActivate(s, tenant, ruleId, effectiveAt, justification)
  }

  /** Seeded rules are the platform's, with the versions their unique index keeps apart. */
  ghost predicate Seeded(platform: seq<Rule>) {
    && (forall i :: 0 <= i < |platform| ==> platform[i].tenant.None?)
    && DistinctIds(platform)
    && PlatformVersionsDiffer(platform)
  }

  ghost predicate IsRun(states: seq<State>, events: seq<Event>) {
    && |states| == |events| + 1
    && Seeded(states[0].rules) && states[0].previews == [] && states[0].activations == []
    && forall i {:trigger events[i]} :: 0 <= i < |events| ==>
         Enabled(states[i], events[i]) && states[i + 1] == Step(states[i], events[i])
  }

  // ----- What every state satisfies -----

  ghost predicate DistinctIds(rules: seq<Rule>) {
    forall i, j :: 0 <= i < j < |rules| ==> rules[i].id != rules[j].id
  }

  ghost predicate PlatformVersionsDiffer(rules: seq<Rule>) {
    forall i, j :: 0 <= i < j < |rules| ==>
      !(rules[i].tenant.None? && rules[j].tenant.None? && rules[i].jurisdiction == rules[j].jurisdiction
        && rules[i].ruleType == rules[j].ruleType && rules[i].version == rules[j].version)
  }

  predicate SameScope(a: Rule, b: Rule) {
    a.tenant == b.tenant && a.jurisdiction == b.jurisdiction && a.ruleType == b.ruleType
  }

  /** How many rows are in the scope of `r`. */
  function CountScope(rules: seq<Rule>, r: Rule): nat {
    if rules == [] then 0
    else CountScope(rules[..|rules| - 1], r) + if SameScope(rules[|rules| - 1], r) then 1 else 0
  }

  /** A tenant's rows are numbered 1, 2, 3, ... within their scope, in order of creation. */
  ghost predicate NumberedByScope(rules: seq<Rule>) {
    forall i :: 0 <= i < |rules| && rules[i].tenant.Some? ==> rules[i].version == 1 + CountScope(rules[..i], rules[i])
  }

  ghost predicate OneActivePerScope(rules: seq<Rule>) {
    forall i, j :: 0 <= i < j < |rules| && rules[i].tenant.Some? && SameScope(rules[i], rules[j]) ==>
      !(rules[i].status.Active? && rules[j].status.Active?)
  }

  ghost predicate IsNewestPreview(previews: seq<Preview>, id: string, p: Preview) {
    && p in previews && p.ruleId == id
    && forall q :: q in previews && q.ruleId == id ==> q.generatedAt <= p.generatedAt
  }

  /**
    The rule was activated on the strength of the newest of the previews there were by
    then, with a justification if that flagged anything.
   */
  ghost predicate Justified(s: State, id: string) {
    exists a, p :: a in s.activations && a.ruleId == id && a.previewsSeen <= |s.previews|
                   && IsNewestPreview(s.previews[..a.previewsSeen], id, p)
                   && a.noncompliant == p.noncompliant
                   && (a.noncompliant > 0 ==> a.justification.Some? && !Blank(a.justification.value))
  }

  ghost predicate Inv(s: State) {
    && DistinctIds(s.rules)
    && PlatformVersionsDiffer(s.rules)
    && NumberedByScope(s.rules)
    && OneActivePerScope(s.rules)
    && forall i :: 0 <= i < |s.rules| && s.rules[i].tenant.Some? ==>
         !s.rules[i].status.Rejected? && (s.rules[i].status.PendingReview? || Justified(s, s.rules[i].id))
  }

  lemma {:induction false} CountScopeGrows(rules: seq<Rule>, i: nat, j: nat, r: Rule)
    requires i <= j <= |rules|
    ensures CountScope(rules[..i], r) <= CountScope(rules[..j], r)
  {
    if i < j {
      CountScopeGrows(rules, i, j - 1, r);
      assert rules[..j][..j - 1] == rules[..j - 1];
    }
  }

  /** Within a tenant's scope, later rows have higher versions. */
  lemma VersionsIncrease(rules: seq<Rule>, i: nat, j: nat)
    requires NumberedByScope(rules) && i < j < |rules| && rules[i].tenant.Some? && SameScope(rules[i], rules[j])
    ensures rules[i].version < rules[j].version
  {
    CountScopeGrows(rules, i + 1, j, rules[j]);
    assert rules[..i + 1][..i] == rules[..i];
    SameCount(rules[..i], rules[i], rules[j]);
  }

  lemma {:induction false} SameCount(rules: seq<Rule>, a: Rule, b: Rule)
    requires SameScope(a, b)
    ensures CountScope(rules, a) == CountScope(rules, b)
  {
    if rules != [] {
      SameCount(rules[..|rules| - 1], a, b);
    }
  }

  lemma {:induction false} MaxIsCount(rules: seq<Rule>, r: Rule)
    requires NumberedByScope(rules) && r.tenant.Some?
    ensures MaxVersion(rules, r.tenant.value, r.jurisdiction, r.ruleType) == CountScope(rules, r)
  {
    if rules != [] {
      var n := |rules| - 1;
      assert forall i :: 0 <= i < n ==> rules[..n][..i] == rules[..i];
      MaxIsCount(rules[..n], r);
      if SameScope(rules[n], r) {
        SameCount(rules[..n], rules[n], r);
      }
    }
  }

  lemma NewRuleIsNumbered(rules: seq<Rule>, r: Rule)
    requires NumberedByScope(rules) && r.tenant.Some?
    requires r.version == MaxVersion(rules, r.tenant.value, r.jurisdiction, r.ruleType) + 1
    ensures NumberedByScope(rules + [r])
  {
    var after := rules + [r];
    MaxIsCount(rules, r);
    forall i | 0 <= i < |after| && after[i].tenant.Some?
      ensures after[i].version == 1 + CountScope(after[..i], after[i])
    {
      assert after[..i] == rules[..i];
      assert rules[..|rules|] == rules;
    }
  }

  lemma CreateKeeps(s: State, tenant: string, input: Input, id: string)
    requires Inv(s) && Enabled(s, Create(tenant, input, id))
    ensures Inv(AfterCreate(s, tenant, input, id))
  {
    if CreateAccepted(input) {
      var r := NewRule(s.rules, tenant, input, id);
      var t := AfterCreate(s, tenant, input, id);
      NewRuleIsNumbered(s.rules, r);
      forall i | 0 <= i < |t.rules| && t.rules[i].tenant.Some?
        ensures !t.rules[i].status.Rejected? && (t.rules[i].status.PendingReview? || Justified(t, t.rules[i].id))
      {
        if i < |s.rules| && !s.rules[i].status.PendingReview? {
          JustificationLasts(s, t, s.rules[i].id);
        }
      }
    }
  }

  /** A preview is recorded of a rule of the tenant's own, and of no other. */
  lemma PreviewIsOfOwnRule(s: State, tenant: string, ruleId: string, noncompliant: nat, at: int)
    requires DistinctIds(s.rules)
    ensures AfterPreview(s, tenant, ruleId, noncompliant, at) ==
            if exists i :: 0 <= i < |s.rules| && s.rules[i].id == ruleId && s.rules[i].tenant == Some(tenant)
            then State(s.rules, s.previews + [Preview(ruleId, noncompliant, at)], s.activations)
            else s
  {
    FindIsExact(s.rules, tenant, ruleId);
  }

  lemma PreviewKeeps(s: State, tenant: string, ruleId: string, noncompliant: nat, at: int)
    requires Inv(s)
    ensures Inv(AfterPreview(s, tenant, ruleId, noncompliant, at))
  {
    var t := AfterPreview(s, tenant, ruleId, noncompliant, at);
    forall i | 0 <= i < |t.rules| && t.rules[i].tenant.Some? && !t.rules[i].status.PendingReview?
      ensures Justified(t, t.rules[i].id)
    {
      JustificationLasts(s, t, t.rules[i].id);
    }
  }

  lemma JustificationLasts(s: State, after: State, id: string)
    requires Justified(s, id)
    requires forall a :: a in s.activations ==> a in after.activations
    requires s.previews <= after.previews
    ensures Justified(after, id)
  {
    var a, p :| a in s.activations && a.ruleId == id && a.previewsSeen <= |s.previews|
                && IsNewestPreview(s.previews[..a.previewsSeen], id, p)
                && a.noncompliant == p.noncompliant
                && (a.noncompliant > 0 ==> a.justification.Some? && !Blank(a.justification.value));
    assert after.previews[..a.previewsSeen] == s.previews[..a.previewsSeen];
  }

  /** A tenant finds a rule by its id exactly if there is one that it sees. */
  lemma {:induction false} FindIsExact(rules: seq<Rule>, tenant: string, id: string)
    ensures Find(rules, tenant, id).None? <==>
            forall r :: r in rules && r.id == id ==> r.tenant.Some? && r.tenant != Some(tenant)
    ensures var found := Find(rules, tenant, id);
            found.Some? ==>
              found.value in rules && found.value.id == id && (found.value.tenant in {None, Some(tenant)})
  {
    if rules != [] {
      FindIsExact(rules[1..], tenant, id);
      assert rules == [rules[0]] + rules[1..];
    }
  }

  lemma {:induction false} MaxIsHighest(rules: seq<Rule>, tenant: string, jurisdiction: string, t: RuleType)
    ensures forall r :: r in rules && r.tenant == Some(tenant) && r.jurisdiction == jurisdiction && r.ruleType == t ==>
              r.version <= MaxVersion(rules, tenant, jurisdiction, t)
  {
    if rules != [] {
      var n := |rules| - 1;
      MaxIsHighest(rules[..n], tenant, jurisdiction, t);
      assert rules == rules[..n] + [rules[n]];
    }
  }

  lemma {:induction false} FindIsARow(rules: seq<Rule>, tenant: string, id: string) returns (k: nat)
    requires Find(rules, tenant, id).Some?
    ensures k < |rules| && rules[k] == Find(rules, tenant, id).value && rules[k].id == id
  {
    if rules[0].id == id && (rules[0].tenant == Some(tenant) || rules[0].tenant.None?) {
      k := 0;
    } else {
      k := FindIsARow(rules[1..], tenant, id);
      k := k + 1;
    }
  }

  lemma {:induction false} LatestPreviewIsARow(previews: seq<Preview>, ruleId: string)
    requires LatestPreview(previews, ruleId).Some?
    ensures LatestPreview(previews, ruleId).value in previews
    ensures LatestPreview(previews, ruleId).value.ruleId == ruleId
    ensures forall p :: p in previews && p.ruleId == ruleId ==>
              p.generatedAt <= LatestPreview(previews, ruleId).value.generatedAt
  {
    var n := |previews| - 1;
    assert previews == previews[..n] + [previews[n]];
    if LatestPreview(previews[..n], ruleId).Some? {
      LatestPreviewIsARow(previews[..n], ruleId);
    } else {
      NoPreview(previews[..n], ruleId);
    }
  }

  lemma {:induction false} NoPreview(previews: seq<Preview>, ruleId: string)
    requires LatestPreview(previews, ruleId).None?
    ensures forall p :: p in previews ==> p.ruleId != ruleId
  {
    if previews != [] {
      var n := |previews| - 1;
      NoPreview(previews[..n], ruleId);
      assert previews == previews[..n] + [previews[n]];
    }
  }

  // ----- Activation -----

  /** Row `k` goes from pending to active and displaces the active row of its scope; nothing else changes. */
  ghost predicate Activates(before: seq<Rule>, after: seq<Rule>, k: nat, effectiveAt: Option<int>) {
    && |before| == |after| && k < |before|
    && before[k].tenant.Some? && before[k].status.PendingReview?
    && after[k] == before[k].(status := Active, activationDelayUntil := effectiveAt)
    && forall i :: 0 <= i < |before| && i != k ==>
         after[i] ==
         if SameScope(before[i], before[k]) && before[i].status.Active? then before[i].(status := Superseded)
         else before[i]
  }

  lemma ActivationShape(
    s: State, tenant: string, ruleId: string, effectiveAt: Option<int>, justification: Option<string>)
    returns (k: nat)
    requires DistinctIds(s.rules) && ActivateAccepted(s, tenant, ruleId, justification)
    ensures Activates(s.rules, AfterActivate(s, tenant, ruleId, effectiveAt, justification).rules, k, effectiveAt)
    ensures s.rules[k] == Find(s.rules, tenant, ruleId).value
    ensures s.rules[k].tenant == Some(tenant) && s.rules[k].id == ruleId
  {
    k := FindIsARow(s.rules, tenant, ruleId);
  }

  lemma {:induction false} CountUnchanged(before: seq<Rule>, after: seq<Rule>, n: nat, r: Rule)
    requires n <= |before| == |after|
    requires forall i :: 0 <= i < |before| ==> SameScope(before[i], after[i])
    ensures CountScope(before[..n], r) == CountScope(after[..n], r)
  {
    if n > 0 {
      CountUnchanged(before, after, n - 1, r);
      assert before[..n][..n - 1] == before[..n - 1] && after[..n][..n - 1] == after[..n - 1];
    }
  }

  lemma ActivationKeepsNumbers(before: seq<Rule>, after: seq<Rule>, k: nat, effectiveAt: Option<int>)
    requires Activates(before, after, k, effectiveAt) && NumberedByScope(before)
    ensures NumberedByScope(after)
  {
    forall i | 0 <= i < |after| && after[i].tenant.Some?
      ensures after[i].version == 1 + CountScope(after[..i], after[i])
    {
      CountUnchanged(before, after, i, after[i]);
      SameCount(before[..i], before[i], after[i]);
    }
  }

  lemma ActivationKeepsOneActive(before: seq<Rule>, after: seq<Rule>, k: nat, effectiveAt: Option<int>)
    requires Activates(before, after, k, effectiveAt) && OneActivePerScope(before)
    ensures OneActivePerScope(after)
  {
  }

  lemma ActivationKeepsIdentity(before: seq<Rule>, after: seq<Rule>, k: nat, effectiveAt: Option<int>)
    requires Activates(before, after, k, effectiveAt) && DistinctIds(before) && PlatformVersionsDiffer(before)
    ensures DistinctIds(after) && PlatformVersionsDiffer(after)
  {
  }

  lemma ActivationIsJustified(
    s: State, tenant: string, ruleId: string, effectiveAt: Option<int>, justification: Option<string>)
    requires ActivateAccepted(s, tenant, ruleId, justification)
    ensures Justified(AfterActivate(s, tenant, ruleId, effectiveAt, justification), ruleId)
  {
    var after := AfterActivate(s, tenant, ruleId, effectiveAt, justification);
    LatestPreviewIsARow(s.previews, ruleId);
    var a, p := after.activations[|s.activations|], LatestPreview(s.previews, ruleId).value;
    assert a in after.activations && after.previews[..a.previewsSeen] == s.previews;
    assert IsNewestPreview(after.previews[..a.previewsSeen], ruleId, p);
  }

  lemma ActivateKeeps(s: State, tenant: string, ruleId: string, effectiveAt: Option<int>, justification: Option<string>)
    requires Inv(s) && ActivateAccepted(s, tenant, ruleId, justification)
    ensures Inv(AfterActivate(s, tenant, ruleId, effectiveAt, justification))
  {
    var k := ActivationShape(s, tenant, ruleId, effectiveAt, justification);
    var after := AfterActivate(s, tenant, ruleId, effectiveAt, justification);
    ActivationKeepsIdentity(s.rules, after.rules, k, effectiveAt);
    ActivationKeepsNumbers(s.rules, after.rules, k, effectiveAt);
    ActivationKeepsOneActive(s.rules, after.rules, k, effectiveAt);
    ActivationIsJustified(s, tenant, ruleId, effectiveAt, justification);
    forall i | 0 <= i < |after.rules| && after.rules[i].tenant.Some?
      ensures !after.rules[i].status.Rejected?
              && (after.rules[i].status.PendingReview? || Justified(after, after.rules[i].id))
    {
      if i != k && !s.rules[i].status.PendingReview? {
        JustificationLasts(s, after, s.rules[i].id);
      }
    }
  }

  lemma StepKeeps(s: State, e: Event)
    requires Inv(s) && Enabled(s, e)
    ensures Inv(Step(s, e))
  {
    match e
    case Create(tenant, input, id) => CreateKeeps(s, tenant, input, id);
    case RecordPreview(tenant, ruleId, noncompliant, at) => PreviewKeeps(s, tenant, ruleId, noncompliant, at);
    case Activate(tenant, ruleId, effectiveAt, justification) =>
      if ActivateAccepted(s, tenant, ruleId, justification) {
        ActivateKeeps(s, tenant, ruleId, effectiveAt, justification);
      }
  }

  lemma {:induction false} RunKeeps(states: seq<State>, events: seq<Event>, n: nat)
    requires IsRun(states, events) && n <= |events|
    ensures Inv(states[n])
  {
    if n > 0 {
      RunKeeps(states, events, n - 1);
      StepKeeps(states[n - 1], events[n - 1]);
    }
  }

  /**
    In every run each tenant scope has at most one active row, its versions are 1, 2, 3, ...
    in order of creation, and every rule that was ever activated had an impact preview by
    then, with a justification if the newest of its previews flagged anything.
   */
  lemma LifecycleIsSound(states: seq<State>, events: seq<Event>, n: nat)
    requires IsRun(states, events) && n <= |events|
    ensures OneActivePerScope(states[n].rules)
    ensures NumberedByScope(states[n].rules)
    ensures forall r :: r in states[n].rules && r.tenant.Some? && !r.status.PendingReview? ==>
              Justified(states[n], r.id)
  {
    RunKeeps(states, events, n);
  }

  function Rank(status: Status): int {
    match status
    case PendingReview => 0
    case Active => 1
    case Superseded => 2
    case Rejected => 3
  }

  /** Rows are never deleted or rewritten: only the status moves, forward, and the activation delay is set. */
  ghost predicate Advances(a: Rule, b: Rule) {
    && Rank(a.status) <= Rank(b.status)
    && (!a.status.PendingReview? ==> a.activationDelayUntil == b.activationDelayUntil)
    && a.(status := Active, activationDelayUntil := None) == b.(status := Active, activationDelayUntil := None)
  }

  lemma StepAdvances(s: State, e: Event, i: nat)
    requires Inv(s) && i < |s.rules|
    ensures i < |Step(s, e).rules| && Advances(s.rules[i], Step(s, e).rules[i])
  {
    if e.Activate? && ActivateAccepted(s, e.tenant, e.ruleId, e.justification) {
      var k := ActivationShape(s, e.tenant, e.ruleId, e.effectiveAt, e.justification);
    }
  }

  lemma AdvancesOn(a: Rule, b: Rule, c: Rule)
    requires Advances(a, b) && Advances(b, c)
    ensures Advances(a, c)
  {
  }

  lemma RunAdvances(states: seq<State>, events: seq<Event>, n: nat, i: nat)
    requires IsRun(states, events) && n < |events| && i < |states[n].rules|
    ensures i < |states[n + 1].rules| && Advances(states[n].rules[i], states[n + 1].rules[i])
  {
    RunKeeps(states, events, n);
    StepAdvances(states[n], events[n], i);
  }

  lemma {:induction false} StatusesMoveForward(states: seq<State>, events: seq<Event>, m: nat, n: nat, i: nat)
    requires IsRun(states, events) && m <= n <= |events| && i < |states[m].rules|
    ensures i < |states[n].rules| && Advances(states[m].rules[i], states[n].rules[i])
  {
    if m < n {
      StatusesMoveForward(states, events, m, n - 1, i);
      RunAdvances(states, events, n - 1, i);
      AdvancesOn(states[m].rules[i], states[n - 1].rules[i], states[n].rules[i]);
    }
  }

  // ----- What activation does to resolution -----

  predicate Sees(viewer: string, jurisdiction: string, r: Rule) {
    (r.tenant == Some(viewer) || r.tenant.None?) && r.jurisdiction == jurisdiction
  }

  /** `listRules`, up to order: the tenant's own rows and the platform's, for a jurisdiction. */
  function Visible(rules: seq<Rule>, viewer: string, jurisdiction: string): seq<Rule> {
    if rules == [] then []
    else
      var n := |rules| - 1;
      Visible(rules[..n], viewer, jurisdiction) + if Sees(viewer, jurisdiction, rules[n]) then [rules[n]] else []
  }

  lemma {:induction false} VisibleIsExact(rules: seq<Rule>, viewer: string, jurisdiction: string)
    ensures forall r :: r in Visible(rules, viewer, jurisdiction) <==> r in rules && Sees(viewer, jurisdiction, r)
  {
    if rules != [] {
      var n := |rules| - 1;
      VisibleIsExact(rules[..n], viewer, jurisdiction);
      assert rules == rules[..n] + [rules[n]];
    }
  }

  function Resolved(rules: seq<Rule>, viewer: string, jurisdiction: string, t: RuleType, asOf: int): Option<Rule> {
    Winner(Visible(rules, viewer, jurisdiction), asOf, t)
  }

  /** The two rows weigh the same in a resolution. */
  ghost predicate Alike(a: Rule, b: Rule, asOf: int, t: RuleType) {
    && a.id == b.id && a.tenant == b.tenant && a.jurisdiction == b.jurisdiction && a.version == b.version
    && Candidate(a, asOf, t) == Candidate(b, asOf, t)
  }

  ghost predicate SameWinner(a: Option<Rule>, b: Option<Rule>, asOf: int, t: RuleType) {
    a.Some? == b.Some? && (a.Some? ==> Alike(a.value, b.value, asOf, t))
  }

  lemma BetterOfAlike(a: Option<Rule>, b: Option<Rule>, r: Rule, q: Rule, asOf: int, t: RuleType)
    requires SameWinner(a, b, asOf, t) && Alike(r, q, asOf, t)
    ensures SameWinner(Better(a, r, asOf, t), Better(b, q, asOf, t), asOf, t)
  {
  }

  /** To this viewer the two tables differ in nothing that a resolution looks at. */
  ghost predicate LookAlike(
    before: seq<Rule>, after: seq<Rule>, viewer: string, jurisdiction: string, t: RuleType, asOf: int)
  {
    && |before| == |after|
    && forall i :: 0 <= i < |before| ==>
         && Sees(viewer, jurisdiction, before[i]) == Sees(viewer, jurisdiction, after[i])
         && (Sees(viewer, jurisdiction, before[i]) ==> Alike(before[i], after[i], asOf, t))
  }

  lemma VisibleGrows(rules: seq<Rule>, n: nat, viewer: string, jurisdiction: string, t: RuleType, asOf: int)
    requires n < |rules|
    ensures Resolved(rules[..n + 1], viewer, jurisdiction, t, asOf) ==
            if Sees(viewer, jurisdiction, rules[n])
            then Better(Resolved(rules[..n], viewer, jurisdiction, t, asOf), rules[n], asOf, t)
            else Resolved(rules[..n], viewer, jurisdiction, t, asOf)
  {
    assert rules[..n + 1][..n] == rules[..n];
    var v := Visible(rules[..n], viewer, jurisdiction);
    if Sees(viewer, jurisdiction, rules[n]) {
      WinnerGrows(v, rules[n], asOf, t);
    } else {
      assert Visible(rules[..n + 1], viewer, jurisdiction) == v;
    }
  }

  lemma {:induction false} LookAlikesResolveAlike(
    before: seq<Rule>, after: seq<Rule>, n: nat, viewer: string, jurisdiction: string, t: RuleType, asOf: int)
    requires LookAlike(before, after, viewer, jurisdiction, t, asOf) && n <= |before|
    ensures SameWinner(Resolved(before[..n], viewer, jurisdiction, t, asOf),
                       Resolved(after[..n], viewer, jurisdiction, t, asOf), asOf, t)
  {
    if n > 0 {
      LookAlikesResolveAlike(before, after, n - 1, viewer, jurisdiction, t, asOf);
      VisibleGrows(before, n - 1, viewer, jurisdiction, t, asOf);
      VisibleGrows(after, n - 1, viewer, jurisdiction, t, asOf);
      if Sees(viewer, jurisdiction, before[n - 1]) {
        BetterOfAlike(Resolved(before[..n - 1], viewer, jurisdiction, t, asOf),
                      Resolved(after[..n - 1], viewer, jurisdiction, t, asOf),
                      before[n - 1], after[n - 1], asOf, t);
      }
    }
  }

  lemma ActivationLooksAlike(
    before: seq<Rule>, after: seq<Rule>, k: nat, effectiveAt: Option<int>,
    viewer: string, jurisdiction: string, t: RuleType, asOf: int)
    requires Activates(before, after, k, effectiveAt)
    requires before[k].tenant != Some(viewer) || jurisdiction != before[k].jurisdiction || !Candidate(after[k], asOf, t)
    ensures LookAlike(before, after, viewer, jurisdiction, t, asOf)
  {
  }

  /**
    Activating a rule changes what is resolved for no other rule type, jurisdiction or
    tenant, and for its own only at instants at which the activated rule is in force: not
    before its delay, and not outside its effective dates.
   */
  lemma ActivationIsLocal(
    s: State, tenant: string, ruleId: string, effectiveAt: Option<int>, justification: Option<string>,
    viewer: string, jurisdiction: string, t: RuleType, asOf: int)
    requires Inv(s) && ActivateAccepted(s, tenant, ruleId, justification)
    requires var r := Find(s.rules, tenant, ruleId).value.(status := Active, activationDelayUntil := effectiveAt);
             viewer != tenant || jurisdiction != r.jurisdiction || !Candidate(r, asOf, t)
    ensures var after := AfterActivate(s, tenant, ruleId, effectiveAt, justification);
            SameWinner(Resolved(s.rules, viewer, jurisdiction, t, asOf),
                       Resolved(after.rules, viewer, jurisdiction, t, asOf), asOf, t)
  {
    var after := AfterActivate(s, tenant, ruleId, effectiveAt, justification).rules;
    var k := ActivationShape(s, tenant, ruleId, effectiveAt, justification);
    ActivationLooksAlike(s.rules, after, k, effectiveAt, viewer, jurisdiction, t, asOf);
    LookAlikesResolveAlike(s.rules, after, |after|, viewer, jurisdiction, t, asOf);
    assert s.rules[..|after|] == s.rules && after[..|after|] == after;
  }

  lemma VisibleVersionsDiffer(s: State, viewer: string, jurisdiction: string, t: RuleType)
    requires Inv(s)
    ensures DistinctVersions(Visible(s.rules, viewer, jurisdiction), t)
  {
    var rows := Visible(s.rules, viewer, jurisdiction);
    VisibleIsExact(s.rules, viewer, jurisdiction);
    forall a, b |
      (a in rows && b in rows && a.ruleType == t && b.ruleType == t
       && a.tenant.Some? == b.tenant.Some? && a.version == b.version)
      ensures a == b
    {
      var i :| 0 <= i < |s.rules| && s.rules[i] == a;
      var j :| 0 <= j < |s.rules| && s.rules[j] == b;
      if i < j && a.tenant.Some? {
        VersionsIncrease(s.rules, i, j);
      } else if j < i && a.tenant.Some? {
        VersionsIncrease(s.rules, j, i);
      }
    }
  }

  /** A higher version of the same scope that is also in force. */
  ghost predicate Overridden(rules: seq<Rule>, r: Rule, asOf: int) {
    exists q :: q in rules && SameScope(q, r) && InForce(q, asOf) && q.version > r.version
  }

  /**
    An active rule in force is what its tenant's lookups resolve to if and only if no
    superseded rule of its scope with a higher version is in force at the same instant.
   */
  lemma ActiveRuleIsResolved(s: State, r: Rule, tenant: string, asOf: int)
    requires Inv(s) && r in s.rules && r.tenant == Some(tenant) && r.status.Active? && InForce(r, asOf)
    ensures Resolved(s.rules, tenant, r.jurisdiction, r.ruleType, asOf) == Some(r) <==> !Overridden(s.rules, r, asOf)
  {
    var rows := Visible(s.rules, tenant, r.jurisdiction);
    VisibleIsExact(s.rules, tenant, r.jurisdiction);
    VisibleVersionsDiffer(s, tenant, r.jurisdiction, r.ruleType);
    BestIsResolved(rows, asOf, r.ruleType, r);
    if Overridden(s.rules, r, asOf) {
      var q :| q in s.rules && SameScope(q, r) && InForce(q, asOf) && q.version > r.version;
      assert q in rows && Beats(q, r);
    }
  }

  // ----- Activating in version order -----

  ghost predicate ActivatedInOrder(rules: seq<Rule>) {
    forall i, j :: 0 <= i < |rules| && 0 <= j < |rules| && SameScope(rules[i], rules[j]) && rules[i].tenant.Some? ==>
      (rules[i].status.Superseded? && rules[j].status.Active? ==> rules[i].version < rules[j].version)
  }

  /** Rule `r` is newer than every rule of its scope activated before it. */
  ghost predicate IsNewest(rules: seq<Rule>, r: Rule) {
    forall q :: q in rules && SameScope(q, r) && (q.status.Active? || q.status.Superseded?) ==> q.version < r.version
  }

  ghost predicate KeepsOrder(s: State, e: Event) {
    e.Activate? && ActivateAccepted(s, e.tenant, e.ruleId, e.justification) ==>
      IsNewest(s.rules, Find(s.rules, e.tenant, e.ruleId).value)
  }

  lemma ActivationKeepsOrder(before: seq<Rule>, after: seq<Rule>, k: nat, effectiveAt: Option<int>)
    requires Activates(before, after, k, effectiveAt) && ActivatedInOrder(before) && IsNewest(before, before[k])
    ensures ActivatedInOrder(after)
  {
  }

  lemma StepKeepsOrder(s: State, e: Event)
    requires Inv(s) && ActivatedInOrder(s.rules) && KeepsOrder(s, e)
    ensures ActivatedInOrder(Step(s, e).rules)
  {
    if e.Activate? && ActivateAccepted(s, e.tenant, e.ruleId, e.justification) {
      var k := ActivationShape(s, e.tenant, e.ruleId, e.effectiveAt, e.justification);
      ActivationKeepsOrder(s.rules, Step(s, e).rules, k, e.effectiveAt);
    }
  }

  lemma {:induction false} RunKeepsOrder(states: seq<State>, events: seq<Event>, n: nat)
    requires IsRun(states, events) && n <= |events|
    requires forall i :: 0 <= i < |events| ==> KeepsOrder(states[i], events[i])
    ensures ActivatedInOrder(states[n].rules)
  {
    if n > 0 {
      RunKeepsOrder(states, events, n - 1);
      RunKeeps(states, events, n - 1);
      StepKeepsOrder(states[n - 1], events[n - 1]);
    }
  }

  lemma NewestActiveIsNotOverridden(s: State, r: Rule, asOf: int)
    requires Inv(s) && ActivatedInOrder(s.rules) && r in s.rules && r.tenant.Some? && r.status.Active?
    ensures !Overridden(s.rules, r, asOf)
  {
    var j :| 0 <= j < |s.rules| && s.rules[j] == r;
    forall i | 0 <= i < |s.rules| && SameScope(s.rules[i], r) && InForce(s.rules[i], asOf)
      ensures s.rules[i].version <= r.version
    {
      assert s.rules[i].status.Active? ==> i == j;
    }
  }

  /** If rules are activated in version order, an active rule is resolved whenever it is in force. */
  lemma InOrderActiveRuleIsResolved(states: seq<State>, events: seq<Event>, n: nat)
    requires IsRun(states, events) && n <= |events|
    requires forall i :: 0 <= i < |events| ==> KeepsOrder(states[i], events[i])
    ensures forall r, asOf :: r in states[n].rules && r.tenant.Some? && r.status.Active? && InForce(r, asOf) ==>
              Resolved(states[n].rules, r.tenant.value, r.jurisdiction, r.ruleType, asOf) == Some(r)
  {
    RunKeeps(states, events, n);
    RunKeepsOrder(states, events, n);
    forall r, asOf | r in states[n].rules && r.tenant.Some? && r.status.Active? && InForce(r, asOf)
      ensures Resolved(states[n].rules, r.tenant.value, r.jurisdiction, r.ruleType, asOf) == Some(r)
    {
      NewestActiveIsNotOverridden(states[n], r, asOf);
      ActiveRuleIsResolved(states[n], r, r.tenant.value, asOf);
    }
  }

  /** What two activations leave of a scope whose rows were both pending. */
  lemma OlderAfterNewer(one: Rule, two: Rule)
    requires one == Rule("a", Some("t"), "US", UnionRule, 0, None, 1, "c", Active, None)
    requires two == Rule("b", Some("t"), "US", UnionRule, 0, None, 2, "c", Superseded, None)
    ensures Resolved([one, two], "t", "US", UnionRule, 0) == Some(two)
  {
    var rules := [one, two];
    assert rules[..1] == [one] && rules[..1][..0] == [];
    assert Visible([one], "t", "US") == [one];
    assert Visible(rules, "t", "US") == rules;
    WinnerGrows([], one, 0, UnionRule);
    WinnerGrows([one], two, 0, UnionRule);
    assert [] + [one] == [one] && [one] + [two] == rules;
  }

  const EXAMPLE_INPUT := Input("US", UnionRule, 0, None, "c")

  function ExampleRule(id: string, version: int, status: Status): Rule {
    Rule(id, Some("t"), "US", UnionRule, 0, None, version, "c", status, None)
  }

  lemma ExampleCreations()
    ensures AfterCreate(State([], [], []), "t", EXAMPLE_INPUT, "a")
            == State([ExampleRule("a", 1, PendingReview)], [], [])
    ensures AfterCreate(State([ExampleRule("a", 1, PendingReview)], [], []), "t", EXAMPLE_INPUT, "b")
            == State([ExampleRule("a", 1, PendingReview), ExampleRule("b", 2, PendingReview)], [], [])
  {
    var one := ExampleRule("a", 1, PendingReview);
    assert Trim("c") == "c";
    assert [one][..0] == [];
  }

  lemma ExampleActivation(s: State, id: string, k: nat, preview: Preview)
    requires |s.rules| == 2 && s.rules[0].id == "a" && s.rules[1].id == "b" && k < 2 && s.rules[k].id == id
    requires s.rules[k].tenant == Some("t") && s.rules[k].status.PendingReview?
    requires LatestPreview(s.previews, id) == Some(preview) && preview.noncompliant == 0
    ensures AfterActivate(s, "t", id, None, None)
            == State([RowAfterActivation(s.rules[0], "t", s.rules[k], None),
                      RowAfterActivation(s.rules[1], "t", s.rules[k], None)],
                     s.previews, s.activations + [Activation(id, |s.previews|, 0, None)])
  {
    assert s.rules[1..][0] == s.rules[1];
    assert Find(s.rules, "t", id) == Some(s.rules[k]);
  }

  lemma ExamplePreview(s: State, id: string, k: nat)
    requires |s.rules| == 2 && s.rules[0].id == "a" && s.rules[1].id == "b" && k < 2 && s.rules[k].id == id
    requires s.rules[k].tenant == Some("t")
    ensures AfterPreview(s, "t", id, 0, 0) == s.(previews := s.previews + [Preview(id, 0, 0)])
  {
    assert s.rules[1..][0] == s.rules[1];
    assert Find(s.rules, "t", id) == Some(s.rules[k]);
  }

  lemma LatestOfTwo(p: Preview, q: Preview)
    requires p.ruleId == "a" && q.ruleId == "b"
    ensures LatestPreview([p, q], "a") == Some(p) && LatestPreview([p, q], "b") == Some(q)
  {
    assert [p, q][..1] == [p] && [p][..0] == [];
    assert LatestPreview([p], "a") == Some(p) && LatestPreview([p], "b") == None;
  }

  lemma RunExtends(states: seq<State>, events: seq<Event>, e: Event)
    requires IsRun(states, events) && Enabled(states[|events|], e)
    ensures IsRun(states + [Step(states[|events|], e)], events + [e])
  {
  }

  function Creations(): seq<Event> {
    [Create("t", EXAMPLE_INPUT, "a"), Create("t", EXAMPLE_INPUT, "b")]
  }

  function CreationsAndPreviews(): seq<Event> {
    Creations() + [RecordPreview("t", "a", 0, 0)] + [RecordPreview("t", "b", 0, 0)]
  }

  function BothPending(): State {
    State([ExampleRule("a", 1, PendingReview), ExampleRule("b", 2, PendingReview)],
          [Preview("a", 0, 0), Preview("b", 0, 0)], [])
  }

  lemma CreationsRun() returns (states: seq<State>)
    ensures IsRun(states, Creations()) && states[2] == BothPending().(previews := [])
  {
    ExampleCreations();
    states := [State([], [], []), State([ExampleRule("a", 1, PendingReview)], [], []), BothPending().(previews := [])];
  }

  lemma PreviewsRun() returns (states: seq<State>)
    ensures IsRun(states, CreationsAndPreviews()) && states[4] == BothPending()
  {
    states := CreationsRun();
    var s3 := BothPending().(previews := [Preview("a", 0, 0)]);
    ExamplePreview(states[2], "a", 0);
    RunExtends(states, Creations(), RecordPreview("t", "a", 0, 0));
    ExamplePreview(s3, "b", 1);
    RunExtends(states + [s3], Creations() + [RecordPreview("t", "a", 0, 0)], RecordPreview("t", "b", 0, 0));
    states := states + [s3] + [BothPending()];
  }

  lemma ActivationsOfBoth(s5: State, s6: State)
    requires s5 == AfterActivate(BothPending(), "t", "b", None, None) && s6 == AfterActivate(s5, "t", "a", None, None)
    ensures s6.rules == [ExampleRule("a", 1, Active), ExampleRule("b", 2, Superseded)]
  {
    var p, q := Preview("a", 0, 0), Preview("b", 0, 0);
    LatestOfTwo(p, q);
    ExampleActivation(BothPending(), "b", 1, q);
    ExampleActivation(s5, "a", 0, p);
  }

  /**
    Out of order it fails: two rules of one scope are created and previewed, version 2 is
    activated and then version 1.  Version 1 is then the only active rule of the scope, yet
    lookups go on resolving to the superseded version 2.
   */
  lemma OlderRuleIsIgnored(newer: Event, older: Event) returns (states: seq<State>)
    requires newer == Activate("t", "b", None, None) && older == Activate("t", "a", None, None)
    ensures IsRun(states, CreationsAndPreviews() + [newer] + [older])
    ensures var rules := states[6].rules;
            && rules == [ExampleRule("a", 1, Active), ExampleRule("b", 2, Superseded)]
            && InForce(rules[0], 0)
            && Resolved(rules, "t", "US", UnionRule, 0) == Some(rules[1])
  {
    states := PreviewsRun();
    var s5 := Step(BothPending(), newer);
    var s6 := Step(s5, older);
    RunExtends(states, CreationsAndPreviews(), newer);
    RunExtends(states + [s5], CreationsAndPreviews() + [newer], older);
    states := states + [s5] + [s6];
    ActivationsOfBoth(s5, s6);
    OlderAfterNewer(ExampleRule("a", 1, Active), ExampleRule("b", 2, Superseded));
  }
}
