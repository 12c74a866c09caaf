/**
 What the answers of the policy engine mean (core/policy.py, decide): which verdict, which reason and which
 matches, said by the rules, lists and definitions of the configuration and not by the steps.
 */
module Decisions {
  import opened Wrappers
  import opened Domains
  import opened Filtering
  import opened Blocklists
  import opened Policy

  // ------------------------------------------------------------------------- who speaks

  // A scope reaches the name itself or, with its subdomains, every name below.
  ghost predicate Reaches(domain: string, includeSubdomains: bool, name: string)
  {
    exists i :: 0 <= i < |Labels(name)| && Parent(name, i) == domain && (i == 0 || includeSubdomains)
  }

  // A rule is for the group and has not reached its expiry.
  predicate IsFor(rule: RuleMetadata, group: string, now: int)
  {
    && (rule.groups == ["*"] || group in rule.groups)
    && (rule.expiresAt.Some? ==> rule.expiresAt.value > now)
  }

  ghost predicate DomainRuleSpeaks(rules: seq<DomainRule>, i: int, group: string, name: string, now: int)
  {
    && 0 <= i < |rules| && IsFor(rules[i].meta, group, now)
    && Reaches(rules[i].domain, rules[i].includeSubdomains, name)
  }

  ghost predicate SomeDomainRule(rules: seq<DomainRule>, group: string, name: string, now: int)
  {
    exists i :: DomainRuleSpeaks(rules, i, group, name, now)
  }

  predicate RegexRuleSpeaks(
    rules: seq<RegexRule>, i: int, action: RuleAction, group: string, name: string, now: int,
    search: (string, string) -> bool)
  {
    && 0 <= i < |rules| && IsFor(rules[i].meta, group, now)
    && rules[i].action == action && search(rules[i].pattern, name)
  }

  ghost predicate SomeRegexRule(
    rules: seq<RegexRule>, action: RuleAction, group: string, name: string, now: int, search: (string, string) -> bool)
  {
    exists i :: RegexRuleSpeaks(rules, i, action, group, name, now, search)
  }

  ghost predicate IsProtected(protected: seq<ProtectedDomain>, i: int, name: string)
  {
    0 <= i < |protected| && Reaches(protected[i].domain, protected[i].includeSubdomains, name)
  }

  ghost predicate SomeProtected(protected: seq<ProtectedDomain>, name: string)
  {
    exists i :: IsProtected(protected, i, name)
  }

  // The last definition of an id counts.
  predicate DefinesGroup(groups: seq<GroupDefinition>, i: int, id: string)
  {
    0 <= i < |groups| && groups[i].id == id && forall j | i < j < |groups| :: groups[j].id != id
  }

  predicate DefinesPolicy(policies: seq<PolicyDefinition>, i: int, id: string)
  {
    0 <= i < |policies| && policies[i].id == id && forall j | i < j < |policies| :: policies[j].id != id
  }

  // The policy of the group is the i-th one.
  ghost predicate HasPolicy(config: FilteringConfig, group: string, i: int)
  {
    exists g :: DefinesGroup(config.groups, g, group) && DefinesPolicy(config.policies, i, config.groups[g].policy)
  }

  // The k-th list of a policy blocks the name.
  ghost predicate ListSpeaks(
    lists: seq<string>, k: int, blocklists: map<string, set<BlockEntry>>, name: string)
  {
    && 0 <= k < |lists| && lists[k] in blocklists
    && exists e :: e in blocklists[lists[k]] && Reaches(e.domain, e.includeSubdomains, name)
  }

  ghost predicate SomeList(lists: seq<string>, blocklists: map<string, set<BlockEntry>>, name: string)
  {
    exists k :: ListSpeaks(lists, k, blocklists, name)
  }

  // ------------------------------------------------------------------------- the rule check

  // Two rules, neither with an empty list of groups, are live with overlapping groups exactly when there is a
  // group that both are for.
  lemma {:induction false} MeetIff(a: RuleMetadata, b: RuleMetadata, now: int)
    requires a.groups != [] && b.groups != []
    ensures a.IsActive(now) && b.IsActive(now) && GroupsOverlap(a, b) <==> exists g :: IsFor(a, g, now) && IsFor(b, g, now)
  {
    assert a.groups[0] in a.groups && b.groups[0] in b.groups;
    if a.IsActive(now) && b.IsActive(now) && GroupsOverlap(a, b) {
      if a.groups == ["*"] {
        assert IsFor(a, b.groups[0], now) && IsFor(b, b.groups[0], now);
      } else if b.groups == ["*"] {
        assert IsFor(a, a.groups[0], now) && IsFor(b, a.groups[0], now);
      } else {
        var g :| g in a.groups && g in b.groups;
        assert IsFor(a, g, now) && IsFor(b, g, now);
      }
    }
  }

  // So the check reports two domain rules of one action exactly when they have one scope and some group sees
  // both of them alive; likewise an allow and a deny rule, and two patterns.
  lemma {:induction false} ReportedIff(
    c: FilteringConfig, now: int, search: (string, string) -> bool, i: nat, j: nat, a: RuleMetadata, b: RuleMetadata)
    requires a.groups != [] && b.groups != []
    ensures i < j < |c.allow| && c.allow[i].meta == a && c.allow[j].meta == b ==>
              (IsIssue(c, now, search, DuplicateRule(Allow, i, j)) <==>
               IsOneScope(c.allow[i], c.allow[j]) && exists g :: IsFor(a, g, now) && IsFor(b, g, now))
    ensures i < j < |c.deny| && c.deny[i].meta == a && c.deny[j].meta == b ==>
              (IsIssue(c, now, search, DuplicateRule(Deny, i, j)) <==>
               IsOneScope(c.deny[i], c.deny[j]) && exists g :: IsFor(a, g, now) && IsFor(b, g, now))
    ensures i < |c.allow| && j < |c.deny| && c.allow[i].meta == a && c.deny[j].meta == b ==>
              (IsIssue(c, now, search, Conflict(i, j)) <==>
               IsOneScope(c.allow[i], c.deny[j]) && exists g :: IsFor(a, g, now) && IsFor(b, g, now))
    ensures i < j < |c.regex| && c.regex[i].meta == a && c.regex[j].meta == b ==>
              (IsIssue(c, now, search, DuplicateRegex(i, j)) <==>
               c.regex[i].pattern == c.regex[j].pattern && exists g :: IsFor(a, g, now) && IsFor(b, g, now))
  {
    MeetIff(a, b, now);
  }

  predicate IsOneScope(a: DomainRule, b: DomainRule)
  {
    a.domain == b.domain && a.includeSubdomains == b.includeSubdomains
  }

  // What is only noted, what is warned of, and what is an error.
  lemma {:induction false} LevelsAre(x: Issue)
    ensures LevelOf(x) == Info <==> x.UnusedPolicy? || x.UnusedSource? || x.ExpiredRule?
    ensures LevelOf(x) == Warning <==> x.NoProtectedDomains?
  {
  }

  // ---------------------------------------------------------------- dictionaries and scopes

  lemma {:induction false} ReachesIffCovers(domain: string, includeSubdomains: bool, name: string)
    ensures Reaches(domain, includeSubdomains, name) <==> Covers(domain, includeSubdomains, name)
  {
    CoversByLabels(domain, includeSubdomains, name);
  }

  lemma {:induction false} GroupIsDefined(groups: seq<GroupDefinition>, id: string)
    ensures id in GroupPolicies(groups) <==> exists i :: DefinesGroup(groups, i, id)
    ensures forall i | DefinesGroup(groups, i, id) :: id in GroupPolicies(groups) && GroupPolicies(groups)[id] == groups[i].policy
  {
    if groups != [] {
      var n := |groups| - 1;
      GroupIsDefined(groups[..n], id);
      if groups[n].id == id {
        assert DefinesGroup(groups, n, id);
      } else {
        assert forall i :: DefinesGroup(groups, i, id) <==> DefinesGroup(groups[..n], i, id);
      }
    }
  }

  lemma {:induction false} PolicyIsDefined(policies: seq<PolicyDefinition>, id: string)
    ensures id in PolicyLists(policies) <==> exists i :: DefinesPolicy(policies, i, id)
    ensures forall i | DefinesPolicy(policies, i, id) ::
              id in PolicyLists(policies) && PolicyLists(policies)[id] == policies[i].blocklists
  {
    if policies != [] {
      var n := |policies| - 1;
      PolicyIsDefined(policies[..n], id);
      if policies[n].id == id {
        assert DefinesPolicy(policies, n, id);
      } else {
        assert forall i :: DefinesPolicy(policies, i, id) <==> DefinesPolicy(policies[..n], i, id);
      }
    }
  }

  lemma {:induction false} PolicyIsFound(config: FilteringConfig, group: string)
    ensures var groups, policies := GroupPolicies(config.groups), PolicyLists(config.policies);
            && (group in groups && groups[group] in policies <==> exists i :: HasPolicy(config, group, i))
            && (forall i | HasPolicy(config, group, i) ::
                  group in groups && groups[group] in policies && policies[groups[group]] == config.policies[i].blocklists)
  {
    GroupIsDefined(config.groups, group);
    if group in GroupPolicies(config.groups) {
      var g :| DefinesGroup(config.groups, g, group);
      PolicyIsDefined(config.policies, config.groups[g].policy);
      if i :| DefinesPolicy(config.policies, i, config.groups[g].policy) {
        assert HasPolicy(config, group, i);
      }
      OnlyOneDefines(config.groups, g, group);
    }
  }

  lemma {:induction false} OnlyOneDefines(groups: seq<GroupDefinition>, g: int, id: string)
    requires DefinesGroup(groups, g, id)
    ensures forall h | DefinesGroup(groups, h, id) :: h == g
  {
  }

  predicate IsGroup(config: FilteringConfig, group: string)
  {
    exists g :: 0 <= g < |config.groups| && config.groups[g].id == group
  }

  lemma {:induction false} GroupIsKnown(config: FilteringConfig, group: string)
    ensures group in GroupPolicies(config.groups) <==> IsGroup(config, group)
  {
    GroupPoliciesHold(config.groups, group);
    if IsGroup(config, group) {
      var g :| 0 <= g < |config.groups| && config.groups[g].id == group;
      assert config.groups[g] in config.groups;
    }
  }

  // A group that is not defined, a group whose policy is not, and a text that is no domain are refused, in
  // this order; everything else is decided, for the normalized name.
  lemma {:induction false} RefusedIff(
    config: FilteringConfig, blocklists: map<string, set<BlockEntry>>, now: int, search: (string, string) -> bool,
    group: string, domain: string)
    ensures var r := DecideBy(config, blocklists, now, search, group, domain);
            && (r.UnknownGroup? <==> !IsGroup(config, group))
            && (r.UnknownPolicy? <==> IsGroup(config, group) && !exists i :: HasPolicy(config, group, i))
            && (r.InvalidName? <==> NormalizeDomain(domain).None? && exists i :: HasPolicy(config, group, i))
            && (r.Decided? ==> NormalizeDomain(domain) == Some(r.decision.domain))
  {
    GroupIsKnown(config, group);
    PolicyIsFound(config, group);
  }

  // ------------------------------------------------------------------------ first matches

  ghost predicate FirstDomainRuleSpeaks(rules: seq<DomainRule>, i: int, group: string, name: string, now: int)
  {
    DomainRuleSpeaks(rules, i, group, name, now) && forall j | 0 <= j < i :: !DomainRuleSpeaks(rules, j, group, name, now)
  }

  ghost predicate FirstRegexRuleSpeaks(
    rules: seq<RegexRule>, i: int, action: RuleAction, group: string, name: string, now: int,
    search: (string, string) -> bool)
  {
    && RegexRuleSpeaks(rules, i, action, group, name, now, search)
    && forall j | 0 <= j < i :: !RegexRuleSpeaks(rules, j, action, group, name, now, search)
  }

  ghost predicate FirstProtects(protected: seq<ProtectedDomain>, i: int, name: string)
  {
    IsProtected(protected, i, name) && forall j | 0 <= j < i :: !IsProtected(protected, j, name)
  }

  lemma {:induction false} RuleFound(rules: seq<DomainRule>, group: string, name: string, now: int)
    ensures var r := FirstDomainRule(rules, group, name, now);
            && (r.Some? <==> SomeDomainRule(rules, group, name, now))
            && (r.Some? ==> exists i :: FirstDomainRuleSpeaks(rules, i, group, name, now) && r.value == rules[i])
  {
    if rules != [] {
      ReachesIffCovers(rules[0].domain, rules[0].includeSubdomains, name);
      var rest := rules[1..];
      RuleFound(rest, group, name, now);
      assert forall i :: DomainRuleSpeaks(rest, i, group, name, now) ==> DomainRuleSpeaks(rules, i + 1, group, name, now);
      if DomainRuleSpeaks(rules, 0, group, name, now) {
        assert FirstDomainRuleSpeaks(rules, 0, group, name, now);
      } else {
        RuleFoundLater(rules, group, name, now);
      }
    }
  }

  lemma {:induction false} RuleFoundLater(rules: seq<DomainRule>, group: string, name: string, now: int)
    requires rules != [] && !DomainRuleSpeaks(rules, 0, group, name, now)
    ensures forall i | i > 0 ::
              DomainRuleSpeaks(rules, i, group, name, now) <==> DomainRuleSpeaks(rules[1..], i - 1, group, name, now)
    ensures forall i | FirstDomainRuleSpeaks(rules[1..], i, group, name, now) ::
              FirstDomainRuleSpeaks(rules, i + 1, group, name, now)
  {
    forall i | FirstDomainRuleSpeaks(rules[1..], i, group, name, now)
      ensures FirstDomainRuleSpeaks(rules, i + 1, group, name, now)
    {
      forall j | 0 <= j < i + 1
        ensures !DomainRuleSpeaks(rules, j, group, name, now)
      {
        assert j > 0 ==> !DomainRuleSpeaks(rules[1..], j - 1, group, name, now);
      }
    }
  }

  lemma {:induction false} RegexFound(
    rules: seq<RegexRule>, action: RuleAction, group: string, name: string, now: int, search: (string, string) -> bool)
    ensures var r := FirstRegexRule(rules, action, group, name, now, search);
            && (r.Some? <==> SomeRegexRule(rules, action, group, name, now, search))
            && (r.Some? ==> exists i :: FirstRegexRuleSpeaks(rules, i, action, group, name, now, search) && r.value == rules[i])
  {
    if rules != [] {
      var rest := rules[1..];
      RegexFound(rest, action, group, name, now, search);
      assert forall i :: RegexRuleSpeaks(rest, i, action, group, name, now, search) ==>
                           RegexRuleSpeaks(rules, i + 1, action, group, name, now, search);
      if RegexRuleSpeaks(rules, 0, action, group, name, now, search) {
        assert FirstRegexRuleSpeaks(rules, 0, action, group, name, now, search);
      } else {
        RegexFoundLater(rules, action, group, name, now, search);
      }
    }
  }

  lemma {:induction false} RegexFoundLater(
    rules: seq<RegexRule>, action: RuleAction, group: string, name: string, now: int, search: (string, string) -> bool)
    requires rules != [] && !RegexRuleSpeaks(rules, 0, action, group, name, now, search)
    ensures forall i | i > 0 :: RegexRuleSpeaks(rules, i, action, group, name, now, search) <==>
                                RegexRuleSpeaks(rules[1..], i - 1, action, group, name, now, search)
    ensures forall i | FirstRegexRuleSpeaks(rules[1..], i, action, group, name, now, search) ::
              FirstRegexRuleSpeaks(rules, i + 1, action, group, name, now, search)
  {
    forall i | FirstRegexRuleSpeaks(rules[1..], i, action, group, name, now, search)
      ensures FirstRegexRuleSpeaks(rules, i + 1, action, group, name, now, search)
    {
      forall j | 0 <= j < i + 1
        ensures !RegexRuleSpeaks(rules, j, action, group, name, now, search)
      {
        assert j > 0 ==> !RegexRuleSpeaks(rules[1..], j - 1, action, group, name, now, search);
      }
    }
  }

  lemma {:induction false} ProtectedFound(protected: seq<ProtectedDomain>, name: string)
    ensures var r := FirstProtected(protected, name);
            && (r.Some? <==> SomeProtected(protected, name))
            && (r.Some? ==> exists i :: FirstProtects(protected, i, name) && r.value == protected[i])
  {
    if protected != [] {
      ReachesIffCovers(protected[0].domain, protected[0].includeSubdomains, name);
      var rest := protected[1..];
      ProtectedFound(rest, name);
      assert forall i :: IsProtected(rest, i, name) ==> IsProtected(protected, i + 1, name);
      if IsProtected(protected, 0, name) {
        assert FirstProtects(protected, 0, name);
      } else {
        ProtectedFoundLater(protected, name);
      }
    }
  }

  lemma {:induction false} ProtectedFoundLater(protected: seq<ProtectedDomain>, name: string)
    requires protected != [] && !IsProtected(protected, 0, name)
    ensures forall i | i > 0 :: IsProtected(protected, i, name) <==> IsProtected(protected[1..], i - 1, name)
    ensures forall i | FirstProtects(protected[1..], i, name) :: FirstProtects(protected, i + 1, name)
  {
    forall i | FirstProtects(protected[1..], i, name)
      ensures FirstProtects(protected, i + 1, name)
    {
      forall j | 0 <= j < i + 1
        ensures !IsProtected(protected, j, name)
      {
        assert j > 0 ==> !IsProtected(protected[1..], j - 1, name);
      }
    }
  }

  // The lists named are those that block the name, in the order of the policy.
  ghost predicate NamesLists(
    matched: seq<string>, positions: seq<int>, lists: seq<string>, blocklists: map<string, set<BlockEntry>>, name: string)
  {
    && |positions| == |matched|
    && (forall p, q | 0 <= p < q < |positions| :: positions[p] < positions[q])
    && (forall p | 0 <= p < |positions| ::
          ListSpeaks(lists, positions[p], blocklists, name) && matched[p] == lists[positions[p]])
    && (forall k | ListSpeaks(lists, k, blocklists, name) :: k in positions)
  }

  ghost predicate ListsNormalized(blocklists: map<string, set<BlockEntry>>)
  {
    forall s | s in blocklists :: AllNormalized(blocklists[s])
  }

  lemma {:induction false} ListSpeaksIff(lists: seq<string>, k: nat, blocklists: map<string, set<BlockEntry>>, name: string)
    requires ListsNormalized(blocklists) && k < |lists|
    ensures ListSpeaks(lists, k, blocklists, name) <==> ListedBy(EntriesFor(blocklists, lists[k]), name)
  {
    var entries := EntriesFor(blocklists, lists[k]);
    ListedIffBlocked(entries, name);
    forall e | e in entries
      ensures Reaches(e.domain, e.includeSubdomains, name) <==> Covers(e.domain, e.includeSubdomains, name)
    {
      ReachesIffCovers(e.domain, e.includeSubdomains, name);
    }
  }

  lemma {:induction false} OneMoreList(
    matched: seq<string>, positions: seq<int>, lists: seq<string>, n: nat, blocklists: map<string, set<BlockEntry>>,
    name: string)
    requires n + 1 == |lists| && NamesLists(matched, positions, lists[..n], blocklists, name)
    ensures if ListSpeaks(lists, n, blocklists, name)
            then NamesLists(matched + [lists[n]], positions + [n], lists, blocklists, name)
            else NamesLists(matched, positions, lists, blocklists, name)
  {
    forall k
      ensures ListSpeaks(lists, k, blocklists, name) <==>
              ListSpeaks(lists[..n], k, blocklists, name) || (k == n && ListSpeaks(lists, n, blocklists, name))
    {
    }
  }

  lemma {:induction false} ListsFound(lists: seq<string>, blocklists: map<string, set<BlockEntry>>, name: string)
    returns (positions: seq<int>)
    requires ListsNormalized(blocklists)
    ensures NamesLists(MatchedSources(lists, blocklists, name), positions, lists, blocklists, name)
  {
    positions := [];
    if lists != [] {
      var n := |lists| - 1;
      positions := ListsFound(lists[..n], blocklists, name);
      ListSpeaksIff(lists, n, blocklists, name);
      OneMoreList(MatchedSources(lists[..n], blocklists, name), positions, lists, n, blocklists, name);
      if ListSpeaks(lists, n, blocklists, name) {
        positions := positions + [n];
      }
    }
  }

  lemma {:induction false} NamedIff(
    matched: seq<string>, positions: seq<int>, lists: seq<string>, blocklists: map<string, set<BlockEntry>>, name: string)
    requires NamesLists(matched, positions, lists, blocklists, name)
    ensures matched != [] <==> SomeList(lists, blocklists, name)
  {
    if matched != [] {
      assert ListSpeaks(lists, positions[0], blocklists, name);
    }
  }

  // ---------------------------------------------------------------------------- decisions

  ghost predicate SomeAllow(
    config: FilteringConfig, group: string, name: string, now: int, search: (string, string) -> bool)
  {
    SomeDomainRule(config.allow, group, name, now) || SomeRegexRule(config.regex, Allow, group, name, now, search)
  }

  ghost predicate SomeDeny(
    config: FilteringConfig, group: string, name: string, now: int, search: (string, string) -> bool)
  {
    SomeDomainRule(config.deny, group, name, now) || SomeRegexRule(config.regex, Deny, group, name, now, search)
  }

  // A name is blocked exactly when it is not protected, nothing allows it, and a deny rule, a deny regex or
  // a list of the policy of the group speaks against it.
  lemma {:induction false} BlockedIff(
    config: FilteringConfig, blocklists: map<string, set<BlockEntry>>, now: int, search: (string, string) -> bool,
    group: string, i: int, domain: string)
    requires ListsNormalized(blocklists) && HasPolicy(config, group, i) && NormalizeDomain(domain).Some?
    ensures var r, name := DecideBy(config, blocklists, now, search, group, domain), NormalizeDomain(domain).value;
            r.Decided? &&
            (r.decision.verdict == Blocked <==>
             && !SomeProtected(config.protected, name) && !SomeAllow(config, group, name, now, search)
             && (|| SomeDeny(config, group, name, now, search)
                 || SomeList(config.policies[i].blocklists, blocklists, name)))
  {
    var name := NormalizeDomain(domain).value;
    PolicyIsFound(config, group);
    ProtectedFound(config.protected, name);
    RuleFound(config.allow, group, name, now);
    RuleFound(config.deny, group, name, now);
    RegexFound(config.regex, Allow, group, name, now, search);
    RegexFound(config.regex, Deny, group, name, now, search);
    var lists := config.policies[i].blocklists;
    var positions := ListsFound(lists, blocklists, name);
    NamedIff(MatchedSources(lists, blocklists, name), positions, lists, blocklists, name);
  }

  // Each reason, by its own condition and none of the earlier ones.
  lemma {:induction false} ReasonIff(
    config: FilteringConfig, blocklists: map<string, set<BlockEntry>>, now: int, search: (string, string) -> bool,
    group: string, i: int, domain: string)
    requires ListsNormalized(blocklists) && HasPolicy(config, group, i) && NormalizeDomain(domain).Some?
    ensures var r, name := DecideBy(config, blocklists, now, search, group, domain), NormalizeDomain(domain).value;
            var protects, denies := SomeProtected(config.protected, name), SomeDeny(config, group, name, now, search);
            var allows, lists := SomeAllow(config, group, name, now, search), config.policies[i].blocklists;
            r.Decided? && var reason := r.decision.reason;
            && (reason == Protected <==> protects)
            && (reason == AllowRule <==> !protects && SomeDomainRule(config.allow, group, name, now))
            && (reason == AllowRegex <==> !protects && allows && !SomeDomainRule(config.allow, group, name, now))
            && (reason == DenyRule <==> !protects && !allows && SomeDomainRule(config.deny, group, name, now))
            && (reason == DenyRegex <==> !protects && !allows && denies && !SomeDomainRule(config.deny, group, name, now))
            && (reason == Blocklist <==> !protects && !allows && !denies && SomeList(lists, blocklists, name))
            && (reason == Default <==> !protects && !allows && !denies && !SomeList(lists, blocklists, name))
  {
    var name := NormalizeDomain(domain).value;
    PolicyIsFound(config, group);
    ProtectedFound(config.protected, name);
    RuleFound(config.allow, group, name, now);
    RuleFound(config.deny, group, name, now);
    RegexFound(config.regex, Allow, group, name, now, search);
    RegexFound(config.regex, Deny, group, name, now, search);
    var lists := config.policies[i].blocklists;
    var positions := ListsFound(lists, blocklists, name);
    NamedIff(MatchedSources(lists, blocklists, name), positions, lists, blocklists, name);
  }

  // What a decision names: the first protected domain, rule or pattern that speaks, in the order of the file,
  // or every list that blocks the name, in the order of the policy.
  lemma {:induction false} MatchedIs(
    config: FilteringConfig, blocklists: map<string, set<BlockEntry>>, now: int, search: (string, string) -> bool,
    group: string, i: int, domain: string)
    requires ListsNormalized(blocklists) && HasPolicy(config, group, i) && NormalizeDomain(domain).Some?
    ensures var r, name := DecideBy(config, blocklists, now, search, group, domain), NormalizeDomain(domain).value;
            r.Decided? && var matched := r.decision.matched;
            match r.decision.reason
            case Protected => exists k :: FirstProtects(config.protected, k, name) && matched == [config.protected[k].domain]
            case AllowRule =>
              exists k :: FirstDomainRuleSpeaks(config.allow, k, group, name, now) && matched == [config.allow[k].domain]
            case AllowRegex =>
              exists k :: FirstRegexRuleSpeaks(config.regex, k, Allow, group, name, now, search)
                          && matched == [config.regex[k].pattern]
            case DenyRule =>
              exists k :: FirstDomainRuleSpeaks(config.deny, k, group, name, now) && matched == [config.deny[k].domain]
            case DenyRegex =>
              exists k :: FirstRegexRuleSpeaks(config.regex, k, Deny, group, name, now, search)
                          && matched == [config.regex[k].pattern]
            case Blocklist =>
              exists positions :: NamesLists(matched, positions, config.policies[i].blocklists, blocklists, name)
            case Default => matched == []
  {
    var name := NormalizeDomain(domain).value;
    PolicyIsFound(config, group);
    ProtectedFound(config.protected, name);
    RuleFound(config.allow, group, name, now);
    RuleFound(config.deny, group, name, now);
    RegexFound(config.regex, Allow, group, name, now, search);
    RegexFound(config.regex, Deny, group, name, now, search);
    var lists := config.policies[i].blocklists;
    var positions := ListsFound(lists, blocklists, name);
    NamedIff(MatchedSources(lists, blocklists, name), positions, lists, blocklists, name);
  }
}
