/**
 Blocking in the mock DNS provider (providers/mock.py): deployed lists and name look-up.
 */
module MockProvider {
  import opened Domains
  import opened Blocklists

  datatype Deployment = Deployment(sourceId: string, entries: nat, dryRun: bool, applied: bool)

  datatype Lookup = Lookup(blocked: bool, matchedSources: set<string>)

  // Every name above `domain`, the top-level label included.
  function AllParents(domain: string): seq<string>
  {
    var n := |Labels(domain)|;
    seq(n - 1, i requires 0 <= i < n - 1 => Parent(domain, i + 1))
  }

  predicate Matches(entries: set<BlockEntry>, domain: string)
  {
    || BlockEntry(domain, false) in entries
    || BlockEntry(domain, true) in entries
    || exists p :: p in AllParents(domain) && BlockEntry(p, true) in entries
  }

  function LookupIn(blocklists: map<string, set<BlockEntry>>, domain: string): Lookup
  {
    var matched := set id | id in blocklists && Matches(blocklists[id], domain);
    Lookup(matched != {}, matched)
  }

  // A list matches a name exactly when some entry covers it.
  lemma {:induction false} MatchesIffBlocked(entries: set<BlockEntry>, domain: string)
    ensures Matches(entries, domain) <==> Blocks(entries, domain)
  {
    if p :| p in AllParents(domain) && BlockEntry(p, true) in entries {
      var i :| 0 <= i < |AllParents(domain)| && AllParents(domain)[i] == p;
      ParentIff(domain, p, i + 1);
      assert Covers(BlockEntry(p, true).domain, true, domain);
    }
    if e :| e in entries && Covers(e.domain, e.includeSubdomains, domain) {
      assert e == BlockEntry(e.domain, e.includeSubdomains);
      if e.domain != domain {
        var i := BelowHasIndex(domain, e.domain);
        assert AllParents(domain)[i - 1] == e.domain;
      }
    }
    if BlockEntry(domain, false) in entries {
      assert Covers(BlockEntry(domain, false).domain, false, domain);
    }
    if BlockEntry(domain, true) in entries {
      assert Covers(BlockEntry(domain, true).domain, true, domain);
    }
  }

  class MockDnsProvider {
    var blocklists: map<string, set<BlockEntry>>
    const healthy: bool

    constructor (healthy: bool)
      ensures blocklists == map[] && this.healthy == healthy
    {
      this.blocklists, this.healthy := map[], healthy;
    }

    method DeployBlocklist(sourceId: string, entries: set<BlockEntry>, dryRun: bool) returns (r: Deployment)
      modifies this
      ensures r == Deployment(sourceId, |entries|, dryRun, !dryRun)
      ensures blocklists == if dryRun then old(blocklists) else old(blocklists)[sourceId := entries]
    {
      if !dryRun {
        blocklists := blocklists[sourceId := entries];
      }
      r := Deployment(sourceId, |entries|, dryRun, !dryRun);
    }

    method LookupDomain(domain: string) returns (r: Lookup)
      ensures r == LookupIn(blocklists, domain)
      ensures forall id :: id in r.matchedSources <==> id in blocklists && Blocks(blocklists[id], domain)
      ensures r.blocked <==> exists id :: id in blocklists && Blocks(blocklists[id], domain)
    {
      r := LookupIn(blocklists, domain);
      forall id | id in blocklists
        ensures Matches(blocklists[id], domain) <==> Blocks(blocklists[id], domain)
      {
        MatchesIffBlocked(blocklists[id], domain);
      }
      assert r.blocked <==> exists id :: id in r.matchedSources;
    }
  }
}
