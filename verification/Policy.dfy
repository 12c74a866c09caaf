/**
 The policy engine (core/policy.py): for one group and one name, allowed or blocked, and why.
 */
module Policy {
  import opened Wrappers
  import opened Domains
  import opened Filtering
  import opened Blocklists

  datatype Verdict = Allowed | Blocked

  datatype Reason = Protected | AllowRule | AllowRegex | DenyRule | DenyRegex | Blocklist | Default

  datatype Decision = Decision(domain: string, verdict: Verdict, reason: Reason, matched: seq<string>)

  // UnknownGroupError, KeyError for a group whose policy does not exist, InvalidDomainError.
  datatype Outcome = Decided(decision: Decision) | UnknownGroup | UnknownPolicy | InvalidName

  // The name itself and its parents that still have two labels.
  function Names(domain: string): (names: seq<string>)
  {
    var n := |Labels(domain)|;
    seq(n - 1, i requires 0 <= i < n - 1 => Parent(domain, i))
  }

  predicate ListedBy(entries: set<BlockEntry>, name: string)
  {
    BlockEntry(name, false) in entries || exists c :: c in Names(name) && BlockEntry(c, true) in entries
  }

  // Looking a name up by its parents finds exactly the entries that cover it.
  lemma {:induction false} ListedIffBlocked(entries: set<BlockEntry>, name: string)
    requires AllNormalized(entries)
    ensures ListedBy(entries, name) <==> Blocks(entries, name)
  {
    if c :| c in Names(name) && BlockEntry(c, true) in entries {
      NamesCover(c, name);
      assert Covers(BlockEntry(c, true).domain, true, name);
    }
    if Blocks(entries, name) {
      var e :| e in entries && Covers(e.domain, e.includeSubdomains, name);
      CoveringIsNamed(e, name);
      assert e == BlockEntry(e.domain, true) || e == BlockEntry(e.domain, false);
    }
  }

  lemma {:induction false} NamesCover(c: string, name: string)
    requires c in Names(name)
    ensures Covers(c, true, name)
  {
    var i :| 0 <= i < |Labels(name)| - 1 && Names(name)[i] == c;
    CoversByLabels(c, true, name);
  }

  lemma {:induction false} CoveringIsNamed(e: BlockEntry, name: string)
    requires Normalized(e.domain) && Covers(e.domain, e.includeSubdomains, name)
    ensures if e.includeSubdomains then e.domain in Names(name) else e.domain == name
  {
    if e.includeSubdomains {
      CoversByLabels(e.domain, true, name);
      var i :| 0 <= i < |Labels(name)| && Parent(name, i) == e.domain;
      NormalizedIff(e.domain);
      ParentLabels(name, i);
      assert Names(name)[i] == e.domain;
    }
  }

  // ------------------------------------------------------------------------ decisions

  // Dictionaries built from the definitions; the last one of an id counts.
  function GroupPolicies(groups: seq<GroupDefinition>): map<string, string>
  {
    if groups == [] then map[]
    else GroupPolicies(groups[..|groups| - 1])[groups[|groups| - 1].id := groups[|groups| - 1].policy]
  }

  function PolicyLists(policies: seq<PolicyDefinition>): map<string, seq<string>>
  {
    if policies == [] then map[]
    else PolicyLists(policies[..|policies| - 1])[policies[|policies| - 1].id := policies[|policies| - 1].blocklists]
  }

  lemma {:induction false} GroupPoliciesHold(groups: seq<GroupDefinition>, group: string)
    ensures group in GroupPolicies(groups) <==> exists g :: g in groups && g.id == group
    ensures group in GroupPolicies(groups) ==>
              exists g :: g in groups && g.id == group && g.policy == GroupPolicies(groups)[group]
  {
    if groups != [] {
      var front, last := groups[..|groups| - 1], groups[|groups| - 1];
      GroupPoliciesHold(front, group);
      assert groups == front + [last];
      assert last in groups;
    }
  }

  lemma {:induction false} PolicyListsHold(policies: seq<PolicyDefinition>, policy: string)
    ensures policy in PolicyLists(policies) <==> exists p :: p in policies && p.id == policy
  {
    if policies != [] {
      var front, last := policies[..|policies| - 1], policies[|policies| - 1];
      PolicyListsHold(front, policy);
      assert policies == front + [last];
      assert last in policies;
    }
  }

  // After the check every group that is defined has a policy, the DEFAULT group among them: a decision
  // then refuses exactly the groups that are not defined and the names that are not domains.
  lemma {:induction false} CheckedGroupsDecide(
    config: FilteringConfig, blocklists: map<string, set<BlockEntry>>, now: int, search: (string, string) -> bool,
    group: string, domain: string)
    requires NoErrors(config, now, search)
    ensures DecideBy(config, blocklists, now, search, group, domain).Decided? <==>
            (exists g :: g in config.groups && g.id == group) && NormalizeDomain(domain).Some?
    ensures exists g :: g in config.groups && g.id == DEFAULT_GROUP
  {
    GroupPoliciesHold(config.groups, group);
    assert !IsIssue(config, now, search, NoDefaultGroup);
    var k :| 0 <= k < |config.groups| && Ids(config, GroupId)[k] == DEFAULT_GROUP;
    assert config.groups[k] in config.groups;
    if group in GroupPolicies(config.groups) {
      var g :| g in config.groups && g.id == group && g.policy == GroupPolicies(config.groups)[group];
      var i :| 0 <= i < |config.groups| && config.groups[i] == g;
      assert !IsIssue(config, now, search, Issue.UnknownPolicy(i));
      var j :| 0 <= j < |config.policies| && Ids(config, PolicyId)[j] == g.policy;
      assert config.policies[j] in config.policies;
      PolicyListsHold(config.policies, g.policy);
    }
  }

  predicate DomainRuleMatches(rule: DomainRule, group: string, name: string, now: int)
  {
    AppliesTo(rule.meta, group, now) && Covers(rule.domain, rule.includeSubdomains, name)
  }

  predicate RegexRuleMatches(
    rule: RegexRule, action: RuleAction, group: string, name: string, now: int, search: (string, string) -> bool)
  {
    rule.action == action && AppliesTo(rule.meta, group, now) && search(rule.pattern, name)
  }

  function FirstDomainRule(rules: seq<DomainRule>, group: string, name: string, now: int): (r: Option<DomainRule>)
    ensures r.Some? <==> exists i :: 0 <= i < |rules| && DomainRuleMatches(rules[i], group, name, now)
    ensures r.Some? ==> r.value in rules && DomainRuleMatches(r.value, group, name, now)
  {
    if rules == [] then None
    else if DomainRuleMatches(rules[0], group, name, now) then Some(rules[0])
    else
      assert forall i | 0 <= i < |rules| - 1 :: rules[1..][i] == rules[i + 1];
      FirstDomainRule(rules[1..], group, name, now)
  }

  function FirstRegexRule(
    rules: seq<RegexRule>, action: RuleAction, group: string, name: string, now: int, search: (string, string) -> bool)
    : (r: Option<RegexRule>)
    ensures r.Some? <==> exists i :: 0 <= i < |rules| && RegexRuleMatches(rules[i], action, group, name, now, search)
    ensures r.Some? ==> r.value in rules && RegexRuleMatches(r.value, action, group, name, now, search)
  {
    if rules == [] then None
    else if RegexRuleMatches(rules[0], action, group, name, now, search) then Some(rules[0])
    else
      assert forall i | 0 <= i < |rules| - 1 :: rules[1..][i] == rules[i + 1];
      FirstRegexRule(rules[1..], action, group, name, now, search)
  }

  function FirstProtected(protected: seq<ProtectedDomain>, name: string): (r: Option<ProtectedDomain>)
    ensures r.Some? <==> InProtectedScope(name, protected)
    ensures r.Some? ==> r.value in protected && Covers(r.value.domain, r.value.includeSubdomains, name)
  {
    if protected == [] then None
    else if Covers(protected[0].domain, protected[0].includeSubdomains, name) then Some(protected[0])
    else
      assert protected == [protected[0]] + protected[1..];
      FirstProtected(protected[1..], name)
  }

  function EntriesFor(blocklists: map<string, set<BlockEntry>>, source: string): set<BlockEntry>
  {
    if source in blocklists then blocklists[source] else {}
  }

  function MatchedSources(sources: seq<string>, blocklists: map<string, set<BlockEntry>>, name: string): seq<string>
  {
    if sources == [] then []
    else
      var last := sources[|sources| - 1];
      MatchedSources(sources[..|sources| - 1], blocklists, name)
      + (if ListedBy(EntriesFor(blocklists, last), name) then [last] else [])
  }

  lemma {:induction false} MatchedSourcesMember(
    sources: seq<string>, blocklists: map<string, set<BlockEntry>>, name: string, source: string)
    ensures source in MatchedSources(sources, blocklists, name) <==>
            source in sources && ListedBy(EntriesFor(blocklists, source), name)
  {
    if sources != [] {
      MatchedSourcesMember(sources[..|sources| - 1], blocklists, name, source);
      assert sources == sources[..|sources| - 1] + [sources[|sources| - 1]];
    }
  }

  class PolicyEngine {
    const config: FilteringConfig
    const blocklists: map<string, set<BlockEntry>>
    const now: int
    const search: (string, string) -> bool
    const groups: map<string, string> := GroupPolicies(config.groups)
    const policies: map<string, seq<string>> := PolicyLists(config.policies)

    constructor (
      config: FilteringConfig, blocklists: map<string, set<BlockEntry>>, now: int, search: (string, string) -> bool)
      ensures this.config == config && this.blocklists == blocklists && this.now == now && this.search == search
    {
      this.config, this.blocklists, this.now, this.search := config, blocklists, now, search;
    }

    method Decide(group: string, domain: string) returns (r: Outcome)
      ensures r == DecideBy(config, blocklists, now, search, group, domain)
    {
      if group !in groups {
        return Outcome.UnknownGroup;
      }
      if groups[group] !in policies {
        return Outcome.UnknownPolicy;
      }
      var sources := policies[groups[group]];
      var normalized := NormalizeDomain(domain);
      if normalized.None? {
        return InvalidName;
      }
      var name := normalized.value;
      var p := FirstProtected(config.protected, name);
      if p.Some? {
        return Decided(Decision(name, Allowed, Protected, [p.value.domain]));
      }
      var a := FirstDomainRule(config.allow, group, name, now);
      if a.Some? {
        return Decided(Decision(name, Allowed, AllowRule, [a.value.domain]));
      }
      var ar := FirstRegexRule(config.regex, Allow, group, name, now, search);
      if ar.Some? {
        return Decided(Decision(name, Allowed, AllowRegex, [ar.value.pattern]));
      }
      var d := FirstDomainRule(config.deny, group, name, now);
      if d.Some? {
        return Decided(Decision(name, Blocked, DenyRule, [d.value.domain]));
      }
      var dr := FirstRegexRule(config.regex, Deny, group, name, now, search);
      if dr.Some? {
        return Decided(Decision(name, Blocked, DenyRegex, [dr.value.pattern]));
      }
      var matched := CollectSources(sources, name);
      if matched != [] {
        return Decided(Decision(name, Blocked, Blocklist, matched));
      }
      return Decided(Decision(name, Allowed, Default, []));
    }

    method CollectSources(sources: seq<string>, name: string) returns (matched: seq<string>)
      ensures matched == MatchedSources(sources, blocklists, name)
    {
      matched := [];
      for i := 0 to |sources|
        invariant matched == MatchedSources(sources[..i], blocklists, name)
      {
        assert sources[..i + 1][..i] == sources[..i];
        if ListedBy(EntriesFor(blocklists, sources[i]), name) {
          matched := matched + [sources[i]];
        }
      }
      assert sources[..|sources|] == sources;
    }
  }

  // Steps 2 to 7 of a decision, for a normalized name.
  function DecideUnprotected(
    config: FilteringConfig, blocklists: map<string, set<BlockEntry>>, now: int, search: (string, string) -> bool,
    group: string, sources: seq<string>, name: string): Decision
  {
    var a := FirstDomainRule(config.allow, group, name, now);
    var ar := FirstRegexRule(config.regex, Allow, group, name, now, search);
    var d := FirstDomainRule(config.deny, group, name, now);
    var dr := FirstRegexRule(config.regex, Deny, group, name, now, search);
    var matched := MatchedSources(sources, blocklists, name);
    if a.Some? then Decision(name, Allowed, AllowRule, [a.value.domain])
    else if ar.Some? then Decision(name, Allowed, AllowRegex, [ar.value.pattern])
    else if d.Some? then Decision(name, Blocked, DenyRule, [d.value.domain])
    else if dr.Some? then Decision(name, Blocked, DenyRegex, [dr.value.pattern])
    else if matched != [] then Decision(name, Blocked, Blocklist, matched)
    else Decision(name, Allowed, Default, [])
  }

  function DecideBy(
    config: FilteringConfig, blocklists: map<string, set<BlockEntry>>, now: int, search: (string, string) -> bool,
    group: string, domain: string): Outcome
  {
    var groups, policies := GroupPolicies(config.groups), PolicyLists(config.policies);
    if group !in groups then Outcome.UnknownGroup
    else if groups[group] !in policies then Outcome.UnknownPolicy
    else
      match NormalizeDomain(domain)
      case None => InvalidName
      case Some(name) =>
        var p := FirstProtected(config.protected, name);
        if p.Some? then Decided(Decision(name, Allowed, Protected, [p.value.domain]))
        else Decided(DecideUnprotected(config, blocklists, now, search, group, policies[groups[group]], name))
  }

  // ----------------------------------------------------------------------- properties

  ghost predicate DenyRegexReaches(
    config: FilteringConfig, now: int, search: (string, string) -> bool, group: string, name: string)
  {
    exists i :: 0 <= i < |config.regex| && RegexRuleMatches(config.regex[i], Deny, group, name, now, search)
  }

  ghost predicate AllowRuleReaches(config: FilteringConfig, now: int, group: string, name: string)
  {
    exists i :: 0 <= i < |config.allow| && DomainRuleMatches(config.allow[i], group, name, now)
  }

  ghost predicate AllowReaches(
    config: FilteringConfig, now: int, search: (string, string) -> bool, group: string, name: string)
  {
    || AllowRuleReaches(config, now, group, name)
    || (exists i :: 0 <= i < |config.regex| && RegexRuleMatches(config.regex[i], Allow, group, name, now, search))
  }

  // The tripwire holds for every list the engine looks at.
  ghost predicate ListsAreClean(
    sources: seq<string>, blocklists: map<string, set<BlockEntry>>, protected: seq<ProtectedDomain>)
  {
    forall s | s in sources :: AllNormalized(EntriesFor(blocklists, s)) && HasNoHits(EntriesFor(blocklists, s), protected)
  }

  // With a checked configuration and clean lists, the first step of a decision changes nothing
  // except for deny regexes: without it a protected name is blocked exactly when a live deny regex
  // matches it and no allow rule comes first.
  lemma {:induction false} ProtectedStepOnlyStopsRegexes(
    config: FilteringConfig, blocklists: map<string, set<BlockEntry>>, now: int, search: (string, string) -> bool,
    group: string, sources: seq<string>, name: string)
    requires NoErrors(config, now, search)
    requires ListsAreClean(sources, blocklists, config.protected)
    requires InProtectedScope(name, config.protected)
    ensures var d := DecideUnprotected(config, blocklists, now, search, group, sources, name);
            && (d.verdict == Blocked <==>
                DenyRegexReaches(config, now, search, group, name) && !AllowReaches(config, now, search, group, name))
            && (d.verdict == Blocked ==> d.reason == DenyRegex)
  {
    forall j | 0 <= j < |config.deny|
      ensures !DomainRuleMatches(config.deny[j], group, name, now)
    {
      if AppliesTo(config.deny[j].meta, group, now) {
        NoLiveDenyCoversProtected(config, now, search, j, name);
      }
    }
    NoListedSource(sources, blocklists, config.protected, name);
  }

  lemma {:induction false} NoListedSource(
    sources: seq<string>, blocklists: map<string, set<BlockEntry>>, protected: seq<ProtectedDomain>, name: string)
    requires ListsAreClean(sources, blocklists, protected)
    requires InProtectedScope(name, protected)
    ensures MatchedSources(sources, blocklists, name) == []
  {
    var matched := MatchedSources(sources, blocklists, name);
    if matched != [] {
      var s := matched[0];
      MatchedSourcesMember(sources, blocklists, name, s);
      ListedIffBlocked(EntriesFor(blocklists, s), name);
      NoHitsMeansNothingProtectedIsBlocked(EntriesFor(blocklists, s), protected, name);
    }
  }

  // The configuration check tries deny regexes on the protected domains themselves ...
  lemma {:induction false} CheckedRegexesSpareProtectedDomains(
    config: FilteringConfig, now: int, search: (string, string) -> bool, group: string, name: string)
    requires NoErrors(config, now, search)
    requires IsProtectedName(name, config.protected)
    ensures !DenyRegexReaches(config, now, search, group, name)
  {
    var p :| p in config.protected && p.domain == name;
    var k :| 0 <= k < |config.protected| && config.protected[k] == p;
    forall j | 0 <= j < |config.regex|
      ensures !RegexRuleMatches(config.regex[j], Deny, group, name, now, search)
    {
      assert !IsIssue(config, now, search, DenyRegexMatchesProtected(j, k));
    }
  }

  function MatchesNothing(): (string, string) -> bool
  {
    (pattern: string, name: string) => false
  }

  // One pattern that matches one name.
  function Matches(pattern: string, name: string): (string, string) -> bool
  {
    (p: string, n: string) => p == pattern && n == name
  }

  // Everything of the check that does not run a regex.
  ghost predicate NoErrorsBeforeRegexes(config: FilteringConfig, now: int)
  {
    NoErrors(config, now, MatchesNothing())
  }

  ghost predicate HasLiveDenyRegex(config: FilteringConfig, now: int, group: string)
  {
    exists i :: 0 <= i < |config.regex| && config.regex[i].action == Deny && AppliesTo(config.regex[i].meta, group, now)
  }

  lemma {:induction false} OnePatternPassesTheCheck(config: FilteringConfig, now: int, pattern: string, name: string)
    requires NoErrorsBeforeRegexes(config, now) && !IsProtectedName(name, config.protected)
    ensures NoErrors(config, now, Matches(pattern, name))
  {
    forall k | 0 <= k < |config.protected|
      ensures config.protected[k].domain != name
    {
      assert config.protected[k] in config.protected;
    }
    forall x | IsIssue(config, now, Matches(pattern, name), x)
      ensures LevelOf(x) != Error
    {
      assert IsIssue(config, now, MatchesNothing(), x);
    }
  }

  // ... and not on the names below them. So "the check rejects every deny regex that would block a
  // protected name" holds for a name exactly when the name is itself listed as protected, or no deny
  // regex is live for the group: otherwise patterns that match it pass the check.
  lemma {:induction false} CheckSparesNameIff(config: FilteringConfig, now: int, group: string, name: string)
    requires NoErrorsBeforeRegexes(config, now) && InProtectedScope(name, config.protected)
    ensures (forall search | NoErrors(config, now, search) :: !DenyRegexReaches(config, now, search, group, name)) <==>
            IsProtectedName(name, config.protected) || !HasLiveDenyRegex(config, now, group)
  {
    if IsProtectedName(name, config.protected) {
      forall search | NoErrors(config, now, search)
        ensures !DenyRegexReaches(config, now, search, group, name)
      {
        CheckedRegexesSpareProtectedDomains(config, now, search, group, name);
      }
    } else if HasLiveDenyRegex(config, now, group) {
      var i :| 0 <= i < |config.regex| && config.regex[i].action == Deny && AppliesTo(config.regex[i].meta, group, now);
      var search := Matches(config.regex[i].pattern, name);
      OnePatternPassesTheCheck(config, now, config.regex[i].pattern, name);
      assert RegexRuleMatches(config.regex[i], Deny, group, name, now, search);
      assert DenyRegexReaches(config, now, search, group, name);
    }
  }

  // And then only the first step of a decision saves the name: some meaning of the patterns passes the check
  // and blocks the name without that step exactly when the name is not itself listed as protected, some
  // deny regex is live for the group, and no allow rule covers the name.
  lemma {:induction false} OnlyTheProtectedStepSaves(
    config: FilteringConfig, blocklists: map<string, set<BlockEntry>>, now: int, group: string, sources: seq<string>,
    name: string)
    requires NoErrorsBeforeRegexes(config, now) && ListsAreClean(sources, blocklists, config.protected)
    requires InProtectedScope(name, config.protected)
    ensures (exists search | NoErrors(config, now, search) ::
               DecideUnprotected(config, blocklists, now, search, group, sources, name).verdict == Blocked) <==>
            && !IsProtectedName(name, config.protected)
            && HasLiveDenyRegex(config, now, group) && !AllowRuleReaches(config, now, group, name)
  {
    if search :|
      (NoErrors(config, now, search)
       && DecideUnprotected(config, blocklists, now, search, group, sources, name).verdict == Blocked) {
      ProtectedStepOnlyStopsRegexes(config, blocklists, now, search, group, sources, name);
      if IsProtectedName(name, config.protected) {
        CheckedRegexesSpareProtectedDomains(config, now, search, group, name);
      }
    }
    if !IsProtectedName(name, config.protected) && HasLiveDenyRegex(config, now, group)
      && !AllowRuleReaches(config, now, group, name) {
      var pattern := DenyRegexBlocks(config, blocklists, now, group, sources, name);
    }
  }

  lemma {:induction false} DenyRegexBlocks(
    config: FilteringConfig, blocklists: map<string, set<BlockEntry>>, now: int, group: string, sources: seq<string>,
    name: string)
    returns (pattern: string)
    requires NoErrorsBeforeRegexes(config, now) && ListsAreClean(sources, blocklists, config.protected)
    requires InProtectedScope(name, config.protected) && !IsProtectedName(name, config.protected)
    requires HasLiveDenyRegex(config, now, group) && !AllowRuleReaches(config, now, group, name)
    ensures NoErrors(config, now, Matches(pattern, name))
    ensures DecideUnprotected(config, blocklists, now, Matches(pattern, name), group, sources, name).verdict == Blocked
  {
    var i :| 0 <= i < |config.regex| && config.regex[i].action == Deny && AppliesTo(config.regex[i].meta, group, now);
    pattern := config.regex[i].pattern;
    OnePatternPassesTheCheck(config, now, pattern, name);
    forall j | 0 <= j < |config.regex|
      ensures !RegexRuleMatches(config.regex[j], Allow, group, name, now, Matches(pattern, name))
    {
      if AppliesTo(config.regex[j].meta, group, now) {
        SamePatternSameAction(config, now, group, i, j);
      }
    }
    assert RegexRuleMatches(config.regex[i], Deny, group, name, now, Matches(pattern, name));
    ProtectedStepOnlyStopsRegexes(config, blocklists, now, Matches(pattern, name), group, sources, name);
  }

  // Without errors no group has two live regex rules of one pattern, so none that allows and none that denies.
  lemma {:induction false} SamePatternSameAction(config: FilteringConfig, now: int, group: string, i: nat, j: nat)
    requires NoErrorsBeforeRegexes(config, now) && i < |config.regex| && j < |config.regex|
    requires AppliesTo(config.regex[i].meta, group, now) && AppliesTo(config.regex[j].meta, group, now)
    ensures config.regex[i].pattern == config.regex[j].pattern ==> i == j
  {
    assert !IsIssue(config, now, MatchesNothing(), DuplicateRegex(i, j));
    assert !IsIssue(config, now, MatchesNothing(), DuplicateRegex(j, i));
  }

  const WITNESS_NAME := "b" + ".a.x"
  const WITNESS_SEARCH: (string, string) -> bool := Matches("^b", WITNESS_NAME)
  const WITNESS: FilteringConfig := FilteringConfig(
    [GroupDefinition(DEFAULT_GROUP, "standard")], [PolicyDefinition("standard", [])], [], [], [],
    [RegexRule(RuleMetadata([DEFAULT_GROUP], None), Deny, "^b")], ["services"], [ProtectedDomain("a.x", true)])

  // One such configuration: a.x is protected with its subdomains, a live deny regex of the DEFAULT
  // group matches b.a.x, and the whole check has no issue at all.
  lemma {:induction false} DenyRegexBelowProtectedPassesTheCheck()
    ensures var search := WITNESS_SEARCH;
            && (forall x :: !IsIssue(WITNESS, 0, search, x))
            && InProtectedScope(WITNESS_NAME, WITNESS.protected)
            && GroupPolicies(WITNESS.groups) == map[DEFAULT_GROUP := "standard"]
            && PolicyLists(WITNESS.policies) == map["standard" := []]
            && DecideUnprotected(WITNESS, map[], 0, search, DEFAULT_GROUP, [], WITNESS_NAME).verdict == Blocked
  {
    WitnessHasNoIssue();
    var p, rule := WITNESS.protected[0], WITNESS.regex[0];
    assert WITNESS_NAME[1..] == "." + p.domain && |WITNESS_NAME| == 5;
    assert Covers(p.domain, p.includeSubdomains, WITNESS_NAME);
    assert p in WITNESS.protected;
    assert rule.meta.groups == [DEFAULT_GROUP] && DEFAULT_GROUP in rule.meta.groups;
    assert RegexRuleMatches(rule, Deny, DEFAULT_GROUP, WITNESS_NAME, 0, WITNESS_SEARCH);
    assert WITNESS.groups[..0] == [] && WITNESS.policies[..0] == [];
  }

  lemma {:induction false} WitnessHasNoIssue()
    ensures forall x :: !IsIssue(WITNESS, 0, WITNESS_SEARCH, x)
  {
    forall x: Issue
      ensures !IsIssue(WITNESS, 0, WITNESS_SEARCH, x)
    {
      if IsReferenceIssue(x) {
        WitnessRefersWell(x);
      } else {
        assert |WITNESS_NAME| == 5 && |WITNESS.protected[0].domain| == 3;
      }
    }
  }

  lemma {:induction false} WitnessRefersWell(x: Issue)
    requires IsReferenceIssue(x)
    ensures !IsIssue(WITNESS, 0, WITNESS_SEARCH, x)
  {
    if x.DuplicateId? {
      assert Ids(WITNESS, x.kind)[..0] == [];
    } else if x.UnknownRuleGroup? {
      assert |Rules(WITNESS, AllowList)| == 0 && |Rules(WITNESS, DenyList)| == 0;
      assert Rules(WITNESS, RegexList) == [RuleMetadata([DEFAULT_GROUP], None)];
      assert Ids(WITNESS, GroupId)[0] == DEFAULT_GROUP;
    } else {
      assert Ids(WITNESS, GroupId)[0] == DEFAULT_GROUP && Ids(WITNESS, PolicyId)[0] == "standard";
      assert WITNESS.groups[0] in WITNESS.groups;
    }
  }

  // With it, no protected name is ever blocked, whatever the rules and the lists say.
  lemma {:induction false} ProtectedNamesAreAllowed(
    config: FilteringConfig, blocklists: map<string, set<BlockEntry>>, now: int, search: (string, string) -> bool,
    group: string, domain: string)
    ensures var r := DecideBy(config, blocklists, now, search, group, domain);
            r.Decided? ==>
              && NormalizeDomain(domain) == Some(r.decision.domain)
              && (r.decision.reason == Protected <==> InProtectedScope(r.decision.domain, config.protected))
              && (r.decision.reason == Protected ==> r.decision.verdict == Allowed)
  {
  }

  lemma {:induction false} MatchedIffSomeListBlocks(
    sources: seq<string>, blocklists: map<string, set<BlockEntry>>, name: string)
    requires forall s | s in sources :: AllNormalized(EntriesFor(blocklists, s))
    ensures MatchedSources(sources, blocklists, name) != [] <==>
            exists s :: s in sources && Blocks(EntriesFor(blocklists, s), name)
  {
    var matched := MatchedSources(sources, blocklists, name);
    if matched != [] {
      MatchedSourcesMember(sources, blocklists, name, matched[0]);
      ListedIffBlocked(EntriesFor(blocklists, matched[0]), name);
    }
    if s :| s in sources && Blocks(EntriesFor(blocklists, s), name) {
      MatchedSourcesMember(sources, blocklists, name, s);
      ListedIffBlocked(EntriesFor(blocklists, s), name);
    }
  }

  // A list is the reason exactly when some list of the policy covers the name and no rule speaks.
  lemma {:induction false} BlockedByListMeansCovered(
    config: FilteringConfig, blocklists: map<string, set<BlockEntry>>, now: int, search: (string, string) -> bool,
    group: string, sources: seq<string>, name: string)
    requires forall s | s in sources :: AllNormalized(EntriesFor(blocklists, s))
    ensures DecideUnprotected(config, blocklists, now, search, group, sources, name).reason == Blocklist <==>
            && !AllowReaches(config, now, search, group, name)
            && !DenyRegexReaches(config, now, search, group, name)
            && (forall i | 0 <= i < |config.deny| :: !DomainRuleMatches(config.deny[i], group, name, now))
            && (exists s :: s in sources && Blocks(EntriesFor(blocklists, s), name))
  {
    MatchedIffSomeListBlocks(sources, blocklists, name);
    ReasonIsBlocklist(config, blocklists, now, search, group, sources, name);
  }

  lemma {:induction false} ReasonIsBlocklist(
    config: FilteringConfig, blocklists: map<string, set<BlockEntry>>, now: int, search: (string, string) -> bool,
    group: string, sources: seq<string>, name: string)
    ensures DecideUnprotected(config, blocklists, now, search, group, sources, name).reason == Blocklist <==>
            && !AllowReaches(config, now, search, group, name)
            && !DenyRegexReaches(config, now, search, group, name)
            && (forall i | 0 <= i < |config.deny| :: !DomainRuleMatches(config.deny[i], group, name, now))
            && MatchedSources(sources, blocklists, name) != []
  {
    assert AllowReaches(config, now, search, group, name) <==>
           FirstDomainRule(config.allow, group, name, now).Some?
           || FirstRegexRule(config.regex, Allow, group, name, now, search).Some?;
  }
}
