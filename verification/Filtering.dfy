/**
 Filtering configuration (core/filtering.py): rules, their groups and life time, protected domains,
 and the cross checks between rules and protected domains.
 */
module Filtering {
  import opened Wrappers
  import opened Domains

  const ALL_GROUPS := "*"
  const DEFAULT_GROUP := "DEFAULT"

  datatype RuleMetadata = RuleMetadata(groups: seq<string>, expiresAt: Option<int>)
  {
    predicate IsActive(now: int)
    {
      expiresAt.None? || now < expiresAt.value
    }

    predicate AppliesToAllGroups()
    {
      groups == [ALL_GROUPS]
    }
  }

  datatype DomainRule = DomainRule(meta: RuleMetadata, domain: string, includeSubdomains: bool)

  datatype RuleAction = Allow | Deny

  datatype RegexRule = RegexRule(meta: RuleMetadata, action: RuleAction, pattern: string)

  datatype ProtectedDomain = ProtectedDomain(domain: string, includeSubdomains: bool)

  datatype GroupDefinition = GroupDefinition(id: string, policy: string)

  datatype PolicyDefinition = PolicyDefinition(id: string, blocklists: seq<string>)

  // Sources and protected categories are reduced to their ids; `protected` is what all categories list.
  datatype FilteringConfig = FilteringConfig(
    groups: seq<GroupDefinition>,
    policies: seq<PolicyDefinition>,
    sources: seq<string>,
    allow: seq<DomainRule>,
    deny: seq<DomainRule>,
    regex: seq<RegexRule>,
    categories: seq<string>,
    protected: seq<ProtectedDomain>)

  predicate GroupsOverlap(a: RuleMetadata, b: RuleMetadata)
  {
    || a.AppliesToAllGroups()
    || b.AppliesToAllGroups()
    || exists g :: g in a.groups && g in b.groups
  }

  predicate AppliesTo(rule: RuleMetadata, group: string, now: int)
  {
    rule.IsActive(now) && (rule.groups == [ALL_GROUPS] || group in rule.groups)
  }

  // Does a scope reach a protected domain, from above or from inside?
  predicate Touches(domain: string, includeSubdomains: bool, p: ProtectedDomain)
  {
    || Covers(domain, includeSubdomains, p.domain)
    || Covers(p.domain, p.includeSubdomains, domain)
  }

  // A name that a protected entry keeps resolvable.
  predicate InProtectedScope(name: string, protected: seq<ProtectedDomain>)
  {
    exists p :: p in protected && Covers(p.domain, p.includeSubdomains, name)
  }

  // A scope that touches no protected entry covers no name that any of them protects.
  lemma {:induction false} UntouchedScopeIsSafe(
    domain: string, includeSubdomains: bool, protected: seq<ProtectedDomain>, name: string)
    requires forall p | p in protected :: !Touches(domain, includeSubdomains, p)
    requires InProtectedScope(name, protected)
    ensures !Covers(domain, includeSubdomains, name)
  {
    var p :| p in protected && Covers(p.domain, p.includeSubdomains, name);
    if Covers(domain, includeSubdomains, name) {
      assert !Touches(domain, includeSubdomains, p);
      ScopesAreComparable(name, domain, p.domain);
    }
  }

  // -------------------------------------------------------------------------- checks

  datatype Level = Error | Warning | Info

  datatype IdKind = GroupId | PolicyId | SourceId | CategoryId

  datatype RuleList = AllowList | DenyList | RegexList

  // Numbers are positions in the lists of the configuration.
  datatype Issue =
    | DuplicateId(kind: IdKind, index: nat)
    | NoDefaultGroup
    | UnknownPolicy(group: nat)
    | UnknownBlocklist(policy: nat, entry: nat)
    | RepeatedBlocklist(policy: nat)
    | UnusedPolicy(policy: nat)
    | UnusedSource(source: nat)
    | UnknownRuleGroup(list: RuleList, rule: nat, entry: nat)
    | ExpiredRule(list: RuleList, rule: nat)
    | DuplicateRule(action: RuleAction, first: nat, second: nat)
    | Conflict(allow: nat, deny: nat)
    | DuplicateRegex(first: nat, second: nat)
    | NoProtectedDomains
    | RepeatedProtected(entry: nat)
    | DenyTouchesProtected(deny: nat, entry: nat)
    | DenyRegexMatchesProtected(regex: nat, entry: nat)

  function LevelOf(issue: Issue): Level
  {
    match issue
    case UnusedPolicy(_) | UnusedSource(_) | ExpiredRule(_, _) => Info
    case NoProtectedDomains => Warning
    case _ => Error
  }

  function Ids(c: FilteringConfig, kind: IdKind): seq<string>
  {
    match kind
    case GroupId => seq(|c.groups|, i requires 0 <= i < |c.groups| => c.groups[i].id)
    case PolicyId => seq(|c.policies|, i requires 0 <= i < |c.policies| => c.policies[i].id)
    case SourceId => c.sources
    case CategoryId => c.categories
  }

  function Rules(c: FilteringConfig, list: RuleList): seq<RuleMetadata>
  {
    match list
    case AllowList => seq(|c.allow|, i requires 0 <= i < |c.allow| => c.allow[i].meta)
    case DenyList => seq(|c.deny|, i requires 0 <= i < |c.deny| => c.deny[i].meta)
    case RegexList => seq(|c.regex|, i requires 0 <= i < |c.regex| => c.regex[i].meta)
  }

  // Seen before: what a loop over a growing `seen` set reports.
  predicate Repeats<T(==)>(s: seq<T>, i: nat)
  {
    i < |s| && s[i] in s[..i]
  }

  predicate SameScope(a: DomainRule, b: DomainRule)
  {
    a.domain == b.domain && a.includeSubdomains == b.includeSubdomains && GroupsOverlap(a.meta, b.meta)
  }

  // Regular-expression search is a parameter: search(pattern, name).
  ghost predicate IsIssue(c: FilteringConfig, now: int, search: (string, string) -> bool, issue: Issue)
  {
    match issue
    case DuplicateId(kind, i) => Repeats(Ids(c, kind), i)
    case NoDefaultGroup => DEFAULT_GROUP !in Ids(c, GroupId)
    case UnknownPolicy(i) => i < |c.groups| && c.groups[i].policy !in Ids(c, PolicyId)
    case UnknownBlocklist(i, k) =>
      i < |c.policies| && k < |c.policies[i].blocklists| && c.policies[i].blocklists[k] !in c.sources
    case RepeatedBlocklist(i) => i < |c.policies| && exists k: nat :: Repeats(c.policies[i].blocklists, k)
    case UnusedPolicy(i) => i < |c.policies| && forall g | g in c.groups :: g.policy != c.policies[i].id
    case UnusedSource(i) => i < |c.sources| && forall p | p in c.policies :: c.sources[i] !in p.blocklists
    case UnknownRuleGroup(list, i, k) =>
      && i < |Rules(c, list)| && k < |Rules(c, list)[i].groups|
      && Rules(c, list)[i].groups[k] != ALL_GROUPS && Rules(c, list)[i].groups[k] !in Ids(c, GroupId)
    case ExpiredRule(list, i) => i < |Rules(c, list)| && !Rules(c, list)[i].IsActive(now)
    case DuplicateRule(action, i, j) =>
      var rules := if action.Allow? then c.allow else c.deny;
      i < j < |rules| && rules[i].meta.IsActive(now) && rules[j].meta.IsActive(now) && SameScope(rules[i], rules[j])
    case Conflict(i, j) =>
      && i < |c.allow| && j < |c.deny|
      && c.allow[i].meta.IsActive(now) && c.deny[j].meta.IsActive(now) && SameScope(c.allow[i], c.deny[j])
    case DuplicateRegex(i, j) =>
      && i < j < |c.regex| && c.regex[i].meta.IsActive(now) && c.regex[j].meta.IsActive(now)
      && c.regex[i].pattern == c.regex[j].pattern && GroupsOverlap(c.regex[i].meta, c.regex[j].meta)
    case NoProtectedDomains => c.protected == []
    case RepeatedProtected(k) => Repeats(c.protected, k)
    case DenyTouchesProtected(j, k) =>
      && j < |c.deny| && k < |c.protected|
      && c.deny[j].meta.IsActive(now)
      && Touches(c.deny[j].domain, c.deny[j].includeSubdomains, c.protected[k])
    case DenyRegexMatchesProtected(j, k) =>
      && j < |c.regex| && k < |c.protected|
      && c.regex[j].meta.IsActive(now) && c.regex[j].action.Deny?
      && search(c.regex[j].pattern, c.protected[k].domain)
  }

  // ------------------------------------------------------------- references and identifiers

  // The loop of _duplicates, and of the repeated protected entries.
  method FindRepeated<T(==)>(s: seq<T>) returns (indices: seq<nat>)
    ensures forall i :: i in indices <==> Repeats(s, i)
  {
    indices := [];
    var seen: set<T> := {};
    for a := 0 to |s|
      invariant forall x :: x in seen <==> x in s[..a]
      invariant forall i: nat :: i in indices <==> i < a && Repeats(s, i)
    {
      assert s[..a + 1] == s[..a] + [s[a]];
      if s[a] in seen {
        indices := indices + [a];
      }
      seen := seen + {s[a]};
    }
  }

  method CheckIds(c: FilteringConfig, kind: IdKind) returns (issues: seq<Issue>)
    ensures forall x | x in issues :: x.DuplicateId? && x.kind == kind
    ensures forall i: nat :: DuplicateId(kind, i) in issues <==> Repeats(Ids(c, kind), i)
  {
    var repeated := FindRepeated(Ids(c, kind));
    issues := seq(|repeated|, i requires 0 <= i < |repeated| => DuplicateId(kind, repeated[i]));
    forall i: nat
      ensures DuplicateId(kind, i) in issues <==> i in repeated
    {
      if i in repeated {
        var k :| 0 <= k < |repeated| && repeated[k] == i;
        assert issues[k] == DuplicateId(kind, i);
      }
    }
  }

  method CheckGroups(c: FilteringConfig) returns (issues: seq<Issue>)
    ensures forall x | x in issues :: x.NoDefaultGroup? || x.UnknownPolicy?
    ensures NoDefaultGroup in issues <==> DEFAULT_GROUP !in Ids(c, GroupId)
    ensures forall i: nat :: UnknownPolicy(i) in issues <==> i < |c.groups| && c.groups[i].policy !in Ids(c, PolicyId)
  {
    issues := if DEFAULT_GROUP !in Ids(c, GroupId) then [NoDefaultGroup] else [];
    for a := 0 to |c.groups|
      invariant forall x | x in issues :: x.NoDefaultGroup? || x.UnknownPolicy?
      invariant NoDefaultGroup in issues <==> DEFAULT_GROUP !in Ids(c, GroupId)
      invariant forall i: nat :: UnknownPolicy(i) in issues <==> i < a && c.groups[i].policy !in Ids(c, PolicyId)
    {
      if c.groups[a].policy !in Ids(c, PolicyId) {
        issues := issues + [UnknownPolicy(a)];
      }
    }
  }

  method CheckPolicies(c: FilteringConfig) returns (issues: seq<Issue>)
    ensures forall x | x in issues :: x.UnknownBlocklist? || x.RepeatedBlocklist?
    ensures forall i: nat, k: nat ::
              UnknownBlocklist(i, k) in issues <==>
              i < |c.policies| && k < |c.policies[i].blocklists| && c.policies[i].blocklists[k] !in c.sources
    ensures forall i: nat ::
              RepeatedBlocklist(i) in issues <==> i < |c.policies| && exists k: nat :: Repeats(c.policies[i].blocklists, k)
  {
    issues := [];
    for a := 0 to |c.policies|
      invariant forall x | x in issues :: x.UnknownBlocklist? || x.RepeatedBlocklist?
      invariant forall i: nat, k: nat ::
                  UnknownBlocklist(i, k) in issues <==>
                  i < a && k < |c.policies[i].blocklists| && c.policies[i].blocklists[k] !in c.sources
      invariant forall i: nat ::
                  RepeatedBlocklist(i) in issues <==> i < a && exists k: nat :: Repeats(c.policies[i].blocklists, k)
    {
      var lists := c.policies[a].blocklists;
      ghost var before := issues;
      for b := 0 to |lists|
        invariant forall x | x in issues :: x in before || x.UnknownBlocklist?
        invariant forall x | x in before :: x in issues
        invariant forall i: nat, k: nat ::
                    UnknownBlocklist(i, k) in issues <==>
                    UnknownBlocklist(i, k) in before || (i == a && k < b && lists[k] !in c.sources)
      {
        if lists[b] !in c.sources {
          issues := issues + [UnknownBlocklist(a, b)];
        }
      }
      var repeated := FindRepeated(lists);
      assert repeated != [] ==> repeated[0] in repeated;
      if repeated != [] {
        issues := issues + [RepeatedBlocklist(a)];
      }
    }
  }

  method CheckUse(c: FilteringConfig) returns (issues: seq<Issue>)
    ensures forall x | x in issues :: x.UnusedPolicy? || x.UnusedSource?
    ensures forall i: nat ::
              UnusedPolicy(i) in issues <==> i < |c.policies| && forall g | g in c.groups :: g.policy != c.policies[i].id
    ensures forall i: nat ::
              UnusedSource(i) in issues <==> i < |c.sources| && forall p | p in c.policies :: c.sources[i] !in p.blocklists
  {
    issues := [];
    for a := 0 to |c.policies|
      invariant forall x | x in issues :: x.UnusedPolicy?
      invariant forall i: nat ::
                  UnusedPolicy(i) in issues <==> i < a && forall g | g in c.groups :: g.policy != c.policies[i].id
    {
      if forall g | g in c.groups :: g.policy != c.policies[a].id {
        issues := issues + [UnusedPolicy(a)];
      }
    }
    ghost var unused := issues;
    for a := 0 to |c.sources|
      invariant forall x | x in issues :: x in unused || x.UnusedSource?
      invariant forall x | x in unused :: x in issues
      invariant forall i: nat ::
                  UnusedSource(i) in issues <==> i < a && forall p | p in c.policies :: c.sources[i] !in p.blocklists
    {
      if forall p | p in c.policies :: c.sources[a] !in p.blocklists {
        issues := issues + [UnusedSource(a)];
      }
    }
  }

  method CheckRules(c: FilteringConfig, list: RuleList, now: int) returns (issues: seq<Issue>)
    ensures forall x | x in issues :: (x.UnknownRuleGroup? || x.ExpiredRule?) && x.list == list
    ensures forall i: nat, k: nat ::
              UnknownRuleGroup(list, i, k) in issues <==>
              && i < |Rules(c, list)| && k < |Rules(c, list)[i].groups|
              && Rules(c, list)[i].groups[k] != ALL_GROUPS && Rules(c, list)[i].groups[k] !in Ids(c, GroupId)
    ensures forall i: nat ::
              ExpiredRule(list, i) in issues <==> i < |Rules(c, list)| && !Rules(c, list)[i].IsActive(now)
  {
    var rules, ids := Rules(c, list), Ids(c, GroupId);
    issues := [];
    for a := 0 to |rules|
      invariant forall x | x in issues :: (x.UnknownRuleGroup? || x.ExpiredRule?) && x.list == list
      invariant forall i: nat, k: nat ::
                  UnknownRuleGroup(list, i, k) in issues <==>
                  i < a && k < |rules[i].groups| && rules[i].groups[k] != ALL_GROUPS && rules[i].groups[k] !in ids
      invariant forall i: nat :: ExpiredRule(list, i) in issues <==> i < a && !rules[i].IsActive(now)
    {
      ghost var before := issues;
      for b := 0 to |rules[a].groups|
        invariant forall x | x in issues :: x in before || (x.UnknownRuleGroup? && x.list == list)
        invariant forall x | x in before :: x in issues
        invariant forall i: nat, k: nat ::
                    UnknownRuleGroup(list, i, k) in issues <==>
                    || UnknownRuleGroup(list, i, k) in before
                    || (i == a && k < b && rules[a].groups[k] != ALL_GROUPS && rules[a].groups[k] !in ids)
      {
        if rules[a].groups[b] != ALL_GROUPS && rules[a].groups[b] !in ids {
          issues := issues + [UnknownRuleGroup(list, a, b)];
        }
      }
      if !rules[a].IsActive(now) {
        issues := issues + [ExpiredRule(list, a)];
      }
    }
  }

  // ---------------------------------------------------------------------- rules against rules

  method CheckDuplicates(rules: seq<DomainRule>, action: RuleAction, now: int) returns (issues: seq<Issue>)
    ensures forall x | x in issues :: x.DuplicateRule? && x.action == action
    ensures forall i: nat, j: nat ::
              DuplicateRule(action, i, j) in issues <==>
              (i < j < |rules| && rules[i].meta.IsActive(now) && rules[j].meta.IsActive(now) && SameScope(rules[i], rules[j]))
  {
    issues := [];
    for a := 0 to |rules|
      invariant forall x | x in issues :: x.DuplicateRule? && x.action == action
      invariant forall i: nat, j: nat ::
                  DuplicateRule(action, i, j) in issues <==>
                  (i < a && i < j < |rules| && rules[i].meta.IsActive(now) && rules[j].meta.IsActive(now)
                   && SameScope(rules[i], rules[j]))
    {
      for b := a + 1 to |rules|
        invariant forall x | x in issues :: x.DuplicateRule? && x.action == action
        invariant forall i: nat, j: nat ::
                    DuplicateRule(action, i, j) in issues <==>
                    ((i < a || (i == a && j < b)) && i < j < |rules| && rules[i].meta.IsActive(now)
                     && rules[j].meta.IsActive(now) && SameScope(rules[i], rules[j]))
      {
        if rules[a].meta.IsActive(now) && rules[b].meta.IsActive(now) && SameScope(rules[a], rules[b]) {
          issues := issues + [DuplicateRule(action, a, b)];
        }
      }
    }
  }

  method CheckConflicts(c: FilteringConfig, now: int) returns (issues: seq<Issue>)
    ensures forall x | x in issues :: x.Conflict?
    ensures forall i: nat, j: nat ::
              Conflict(i, j) in issues <==>
              (i < |c.allow| && j < |c.deny| && c.allow[i].meta.IsActive(now) && c.deny[j].meta.IsActive(now)
               && SameScope(c.allow[i], c.deny[j]))
  {
    issues := [];
    for a := 0 to |c.allow|
      invariant forall x | x in issues :: x.Conflict?
      invariant forall i: nat, j: nat ::
                  Conflict(i, j) in issues <==>
                  (i < a && j < |c.deny| && c.allow[i].meta.IsActive(now) && c.deny[j].meta.IsActive(now)
                   && SameScope(c.allow[i], c.deny[j]))
    {
      for b := 0 to |c.deny|
        invariant forall x | x in issues :: x.Conflict?
        invariant forall i: nat, j: nat ::
                    Conflict(i, j) in issues <==>
                    (j < |c.deny| && (i < a || (i == a && j < b)) && c.allow[i].meta.IsActive(now)
                     && c.deny[j].meta.IsActive(now) && SameScope(c.allow[i], c.deny[j]))
      {
        if c.allow[a].meta.IsActive(now) && c.deny[b].meta.IsActive(now) && SameScope(c.allow[a], c.deny[b]) {
          issues := issues + [Conflict(a, b)];
        }
      }
    }
  }

  method CheckRegexes(rules: seq<RegexRule>, now: int) returns (issues: seq<Issue>)
    ensures forall x | x in issues :: x.DuplicateRegex?
    ensures forall i: nat, j: nat ::
              DuplicateRegex(i, j) in issues <==>
              && i < j < |rules| && rules[i].meta.IsActive(now) && rules[j].meta.IsActive(now)
              && rules[i].pattern == rules[j].pattern && GroupsOverlap(rules[i].meta, rules[j].meta)
  {
    issues := [];
    for a := 0 to |rules|
      invariant forall x | x in issues :: x.DuplicateRegex?
      invariant forall i: nat, j: nat ::
                  DuplicateRegex(i, j) in issues <==>
                  && i < a && i < j < |rules| && rules[i].meta.IsActive(now) && rules[j].meta.IsActive(now)
                  && rules[i].pattern == rules[j].pattern && GroupsOverlap(rules[i].meta, rules[j].meta)
    {
      for b := a + 1 to |rules|
        invariant forall x | x in issues :: x.DuplicateRegex?
        invariant forall i: nat, j: nat ::
                    DuplicateRegex(i, j) in issues <==>
                    && (i < a || (i == a && j < b)) && i < j < |rules|
                    && rules[i].meta.IsActive(now) && rules[j].meta.IsActive(now)
                    && rules[i].pattern == rules[j].pattern && GroupsOverlap(rules[i].meta, rules[j].meta)
      {
        if rules[a].meta.IsActive(now) && rules[b].meta.IsActive(now)
           && rules[a].pattern == rules[b].pattern && GroupsOverlap(rules[a].meta, rules[b].meta) {
          issues := issues + [DuplicateRegex(a, b)];
        }
      }
    }
  }

  // ------------------------------------------------------------ rules against protected domains

  method CheckProtectedList(protected: seq<ProtectedDomain>) returns (issues: seq<Issue>)
    ensures forall x | x in issues :: x.NoProtectedDomains? || x.RepeatedProtected?
    ensures NoProtectedDomains in issues <==> protected == []
    ensures forall k: nat :: RepeatedProtected(k) in issues <==> Repeats(protected, k)
  {
    var repeated := FindRepeated(protected);
    var again := seq(|repeated|, i requires 0 <= i < |repeated| => RepeatedProtected(repeated[i]));
    forall k: nat
      ensures RepeatedProtected(k) in again <==> k in repeated
    {
      if k in repeated {
        var i :| 0 <= i < |repeated| && repeated[i] == k;
        assert again[i] == RepeatedProtected(k);
      }
    }
    issues := (if protected == [] then [NoProtectedDomains] else []) + again;
  }

  method CheckProtected(c: FilteringConfig, now: int, search: (string, string) -> bool) returns (issues: seq<Issue>)
    ensures forall x | x in issues :: x.DenyTouchesProtected? || x.DenyRegexMatchesProtected?
    ensures forall x: Issue | x.DenyTouchesProtected? || x.DenyRegexMatchesProtected? ::
              x in issues <==> IsIssue(c, now, search, x)
  {
    issues := [];
    for a := 0 to |c.deny|
      invariant forall x | x in issues :: x.DenyTouchesProtected?
      invariant forall j: nat, k: nat ::
                  DenyTouchesProtected(j, k) in issues <==> (j < a && IsIssue(c, now, search, DenyTouchesProtected(j, k)))
    {
      for b := 0 to |c.protected|
        invariant forall x | x in issues :: x.DenyTouchesProtected?
        invariant forall j: nat, k: nat ::
                    DenyTouchesProtected(j, k) in issues <==>
                    ((j < a || (j == a && k < b)) && IsIssue(c, now, search, DenyTouchesProtected(j, k)))
      {
        if c.deny[a].meta.IsActive(now) && Touches(c.deny[a].domain, c.deny[a].includeSubdomains, c.protected[b]) {
          issues := issues + [DenyTouchesProtected(a, b)];
        }
      }
    }
    ghost var denyIssues := issues;
    for a := 0 to |c.regex|
      invariant forall x | x in issues :: x.DenyTouchesProtected? || x.DenyRegexMatchesProtected?
      invariant forall x: Issue | x.DenyTouchesProtected? :: x in issues <==> x in denyIssues
      invariant forall j: nat, k: nat ::
                  DenyRegexMatchesProtected(j, k) in issues <==>
                  (j < a && IsIssue(c, now, search, DenyRegexMatchesProtected(j, k)))
    {
      for b := 0 to |c.protected|
        invariant forall x | x in issues :: x.DenyTouchesProtected? || x.DenyRegexMatchesProtected?
        invariant forall x: Issue | x.DenyTouchesProtected? :: x in issues <==> x in denyIssues
        invariant forall j: nat, k: nat ::
                    DenyRegexMatchesProtected(j, k) in issues <==>
                    ((j < a || (j == a && k < b)) && IsIssue(c, now, search, DenyRegexMatchesProtected(j, k)))
      {
        if c.regex[a].meta.IsActive(now) && c.regex[a].action.Deny? && search(c.regex[a].pattern, c.protected[b].domain) {
          issues := issues + [DenyRegexMatchesProtected(a, b)];
        }
      }
    }
  }

  // check_filtering_config: exactly the issues that hold, nothing else.
  method CheckFilteringConfig(c: FilteringConfig, now: int, search: (string, string) -> bool)
    returns (issues: seq<Issue>)
    ensures forall x :: x in issues <==> IsIssue(c, now, search, x)
  {
    var references := CheckReferences(c, now, search);
    var rules := CheckRulePairs(c, now, search);
    issues := references + rules;
  }

  predicate IsReferenceIssue(x: Issue)
  {
    || x.DuplicateId? || x.NoDefaultGroup? || x.UnknownPolicy? || x.UnknownBlocklist? || x.RepeatedBlocklist?
    || x.UnusedPolicy? || x.UnusedSource? || x.UnknownRuleGroup? || x.ExpiredRule?
  }

  method CheckReferences(c: FilteringConfig, now: int, search: (string, string) -> bool) returns (issues: seq<Issue>)
    ensures forall x :: x in issues <==> IsReferenceIssue(x) && IsIssue(c, now, search, x)
  {
    var ids := CheckAllIds(c);
    var g := CheckGroups(c);
    var p := CheckPolicies(c);
    var u := CheckUse(c);
    var rules := CheckAllRules(c, now);
    issues := ids + g + p + u + rules;
    forall x
      ensures x in issues <==> IsReferenceIssue(x) && IsIssue(c, now, search, x)
    {
      match x
      case DuplicateId(kind, i) =>
      case UnknownRuleGroup(list, i, k) =>
      case ExpiredRule(list, i) =>
      case _ =>
    }
  }

  method CheckAllIds(c: FilteringConfig) returns (issues: seq<Issue>)
    ensures forall x | x in issues :: x.DuplicateId?
    ensures forall kind, i: nat :: DuplicateId(kind, i) in issues <==> Repeats(Ids(c, kind), i)
  {
    var groups := CheckIds(c, GroupId);
    var policies := CheckIds(c, PolicyId);
    var sources := CheckIds(c, SourceId);
    var categories := CheckIds(c, CategoryId);
    issues := groups + policies + sources + categories;
    forall kind, i: nat
      ensures DuplicateId(kind, i) in issues <==> Repeats(Ids(c, kind), i)
    {
      match kind
      case GroupId =>
      case PolicyId =>
      case SourceId =>
      case CategoryId =>
    }
  }

  method CheckAllRules(c: FilteringConfig, now: int) returns (issues: seq<Issue>)
    ensures forall x | x in issues :: x.UnknownRuleGroup? || x.ExpiredRule?
    ensures forall list, i: nat, k: nat ::
              UnknownRuleGroup(list, i, k) in issues <==>
              && i < |Rules(c, list)| && k < |Rules(c, list)[i].groups|
              && Rules(c, list)[i].groups[k] != ALL_GROUPS && Rules(c, list)[i].groups[k] !in Ids(c, GroupId)
    ensures forall list, i: nat ::
              ExpiredRule(list, i) in issues <==> i < |Rules(c, list)| && !Rules(c, list)[i].IsActive(now)
  {
    var allow := CheckRules(c, AllowList, now);
    var deny := CheckRules(c, DenyList, now);
    var regex := CheckRules(c, RegexList, now);
    issues := allow + deny + regex;
    forall list, i: nat
      ensures ExpiredRule(list, i) in issues <==> i < |Rules(c, list)| && !Rules(c, list)[i].IsActive(now)
      ensures forall k: nat ::
                UnknownRuleGroup(list, i, k) in issues <==>
                && i < |Rules(c, list)| && k < |Rules(c, list)[i].groups|
                && Rules(c, list)[i].groups[k] != ALL_GROUPS && Rules(c, list)[i].groups[k] !in Ids(c, GroupId)
    {
      match list
      case AllowList =>
      case DenyList =>
      case RegexList =>
    }
  }

  method CheckRulePairs(c: FilteringConfig, now: int, search: (string, string) -> bool) returns (issues: seq<Issue>)
    ensures forall x :: x in issues <==> !IsReferenceIssue(x) && IsIssue(c, now, search, x)
  {
    var pairs := CheckAllPairs(c, now, search);
    var l := CheckProtectedList(c.protected);
    var p := CheckProtected(c, now, search);
    issues := pairs + l + p;
    forall x
      ensures x in issues <==> !IsReferenceIssue(x) && IsIssue(c, now, search, x)
    {
      match x
      case NoProtectedDomains =>
      case RepeatedProtected(k) =>
      case DenyTouchesProtected(j, k) =>
      case DenyRegexMatchesProtected(j, k) =>
      case _ =>
    }
  }

  method CheckAllPairs(c: FilteringConfig, now: int, search: (string, string) -> bool) returns (issues: seq<Issue>)
    ensures forall x ::
              x in issues <==> (x.DuplicateRule? || x.Conflict? || x.DuplicateRegex?) && IsIssue(c, now, search, x)
  {
    var a := CheckDuplicates(c.allow, Allow, now);
    var d := CheckDuplicates(c.deny, Deny, now);
    var f := CheckConflicts(c, now);
    var r := CheckRegexes(c.regex, now);
    issues := a + d + f + r;
    forall x
      ensures x in issues <==> (x.DuplicateRule? || x.Conflict? || x.DuplicateRegex?) && IsIssue(c, now, search, x)
    {
      match x
      case DuplicateRule(action, i, j) =>
      case Conflict(i, j) =>
      case DuplicateRegex(i, j) =>
      case _ =>
    }
  }

  ghost predicate NoErrors(c: FilteringConfig, now: int, search: (string, string) -> bool)
  {
    forall x | IsIssue(c, now, search, x) :: LevelOf(x) != Error
  }

  // With no errors, one group never sees two live domain rules with the same scope, so which rule
  // comes first in its file, and whether it allows or denies, is never in doubt.
  lemma {:induction false} RulesAreUnambiguous(
    c: FilteringConfig, now: int, search: (string, string) -> bool, group: string, a: nat, b: nat)
    requires NoErrors(c, now, search)
    ensures a < b < |c.allow| && AppliesTo(c.allow[a].meta, group, now) && AppliesTo(c.allow[b].meta, group, now) ==>
              (c.allow[a].domain, c.allow[a].includeSubdomains) != (c.allow[b].domain, c.allow[b].includeSubdomains)
    ensures a < b < |c.deny| && AppliesTo(c.deny[a].meta, group, now) && AppliesTo(c.deny[b].meta, group, now) ==>
              (c.deny[a].domain, c.deny[a].includeSubdomains) != (c.deny[b].domain, c.deny[b].includeSubdomains)
    ensures a < |c.allow| && b < |c.deny| && AppliesTo(c.allow[a].meta, group, now) && AppliesTo(c.deny[b].meta, group, now) ==>
              (c.allow[a].domain, c.allow[a].includeSubdomains) != (c.deny[b].domain, c.deny[b].includeSubdomains)
  {
    assert !IsIssue(c, now, search, DuplicateRule(Allow, a, b));
    assert !IsIssue(c, now, search, DuplicateRule(Deny, a, b));
    assert !IsIssue(c, now, search, Conflict(a, b));
  }

  // A configuration without errors has no live deny rule that covers a protected name.
  lemma {:induction false} NoLiveDenyCoversProtected(
    c: FilteringConfig, now: int, search: (string, string) -> bool, j: nat, name: string)
    requires NoErrors(c, now, search)
    requires j < |c.deny| && c.deny[j].meta.IsActive(now)
    requires InProtectedScope(name, c.protected)
    ensures !Covers(c.deny[j].domain, c.deny[j].includeSubdomains, name)
  {
    forall p | p in c.protected
      ensures !Touches(c.deny[j].domain, c.deny[j].includeSubdomains, p)
    {
      var k :| 0 <= k < |c.protected| && c.protected[k] == p;
      assert !IsIssue(c, now, search, DenyTouchesProtected(j, k));
    }
    UntouchedScopeIsSafe(c.deny[j].domain, c.deny[j].includeSubdomains, c.protected, name);
  }
}
