/** Printing a policy and parsing it back: exactly what survives. */
module PolicyRoundTrip {
  import opened Wrappers
  import opened PolicyModel
  import opened PolicyConverters

  // ----- The normal form of a message ------------------------------------

  function CanonL7Rule(r: L7Rule): L7Rule
  {
    L7Rule(Some(Get(r.allow, EMPTY_L7_MATCH)))
  }

  /** Fields that `_network_rule_to_dict` does not print come back as their defaults. */
  function CanonEndpoint(e: Endpoint): Endpoint
  {
    e.(rules := MapSeq(CanonL7Rule, e.rules),
       graphqlPersistedQueries := map[],
       websocketCredentialRewrite := false,
       requestBodyCredentialRewrite := false,
       advisorProposed := false)
  }

  function CanonBinary(fs: Host): Binary -> Binary
  {
    (b: Binary) => Binary(Resolve(fs, b.path), false)
  }

  function CanonRule(fs: Host, r: Rule): Rule
  {
    Rule(r.name, MapSeq(CanonEndpoint, r.endpoints), MapSeq(CanonBinary(fs), r.binaries))
  }

  function CanonPolicy(fs: Host, p: SandboxPolicy): SandboxPolicy
  {
    p.(networkPolicies := map k | k in p.networkPolicies :: CanonRule(fs, p.networkPolicies[k]))
  }

  // ----- Parsing a printed message ---------------------------------------

  lemma L7RoundTrip(m: L7Match)
    ensures ParseL7(PrintL7(m)) == m
  {
  }

  lemma L7ListRoundTrip(s: seq<L7Match>)
    ensures MapSeq(ParseL7, MapSeq(PrintL7, s)) == s
  {
    forall i | 0 <= i < |s|
      ensures ParseL7(PrintL7(s[i])) == s[i]
    {
      L7RoundTrip(s[i]);
    }
  }

  lemma L7RuleListRoundTrip(s: seq<L7Rule>)
    ensures MapSeq(ParseL7Rule, MapSeq(PrintL7Rule, s)) == MapSeq(CanonL7Rule, s)
  {
    forall i | 0 <= i < |s|
      ensures ParseL7Rule(PrintL7Rule(s[i])) == CanonL7Rule(s[i])
    {
      L7RoundTrip(Get(s[i].allow, EMPTY_L7_MATCH));
    }
  }

  lemma EndpointRoundTrip(e: Endpoint)
    ensures ParseEndpoint(PrintEndpoint(e)) == CanonEndpoint(e)
  {
    L7RuleListRoundTrip(e.rules);
    L7ListRoundTrip(e.denyRules);
    if e.rules == [] {
      assert MapSeq(ParseL7Rule, []) == MapSeq(CanonL7Rule, e.rules);
    }
    if e.denyRules == [] {
      assert MapSeq(ParseL7, []) == e.denyRules;
    }
  }

  lemma RuleRoundTrip(fs: Host, r: Rule)
    ensures ParseRule(fs, PrintRule(r)) == CanonRule(fs, r)
  {
    forall i | 0 <= i < |r.endpoints|
      ensures ParseEndpoint(PrintEndpoint(r.endpoints[i])) == CanonEndpoint(r.endpoints[i])
    {
      EndpointRoundTrip(r.endpoints[i]);
    }
    assert MapSeq(ParseEndpoint, MapSeq(PrintEndpoint, r.endpoints)) == MapSeq(CanonEndpoint, r.endpoints);
    assert MapSeq(ParseBinary(fs), MapSeq(PrintBinary, r.binaries)) == MapSeq(CanonBinary(fs), r.binaries);
  }

  /** Message to dict and back is the normal form of the message, for every policy. */
  lemma PolicyRoundTrip(fs: Host, p: SandboxPolicy)
    ensures ParsePolicy(fs, PrintPolicy(p)) == CanonPolicy(fs, p)
  {
    var d := PrintPolicy(p);
    var rules := Get(d.networkPolicies, map[]);
    assert rules.Keys == p.networkPolicies.Keys;
    forall k | k in p.networkPolicies
      ensures ParseRule(fs, rules[k]) == CanonRule(fs, p.networkPolicies[k])
    {
      RuleRoundTrip(fs, p.networkPolicies[k]);
    }
    assert ParseRules(fs, rules) == CanonPolicy(fs, p).networkPolicies;
  }

  // ----- Exactly when nothing is lost ------------------------------------

  /** No host is a TLD wildcard. */
  predicate HostsValid(p: SandboxPolicy)
  {
    forall k :: k in p.networkPolicies ==> RuleHostsValid(p.networkPolicies[k])
  }

  predicate RuleHostsValid(r: Rule)
  {
    forall i :: 0 <= i < |r.endpoints| ==> !TldWildcard(r.endpoints[i].host)
  }

  /** Every rule carries `allow`, and no field outside the dict format is set. */
  predicate EndpointPrintable(e: Endpoint)
  {
    && (forall i :: 0 <= i < |e.rules| ==> e.rules[i].allow.Some?)
    && e.graphqlPersistedQueries == map[]
    && !e.websocketCredentialRewrite && !e.requestBodyCredentialRewrite && !e.advisorProposed
  }

  /** The path is not a symlink (to another path) and the deprecated flag is off. */
  predicate BinaryPrintable(fs: Host, b: Binary)
  {
    !b.harness && (b.path == "" || (fs(b.path).SymlinkTo? ==> fs(b.path).target == b.path))
  }

  predicate RulePrintable(fs: Host, r: Rule)
  {
    && (forall i :: 0 <= i < |r.endpoints| ==> EndpointPrintable(r.endpoints[i]))
    && (forall i :: 0 <= i < |r.binaries| ==> BinaryPrintable(fs, r.binaries[i]))
  }

  predicate Printable(fs: Host, p: SandboxPolicy)
  {
    forall k :: k in p.networkPolicies ==> RulePrintable(fs, p.networkPolicies[k])
  }

  lemma EndpointFixed(e: Endpoint)
    ensures CanonEndpoint(e) == e <==> EndpointPrintable(e)
  {
  }

  lemma RuleFixed(fs: Host, r: Rule)
    ensures CanonRule(fs, r) == r <==> RulePrintable(fs, r)
  {
    var c := CanonRule(fs, r);
    forall i | 0 <= i < |r.endpoints|
      ensures c.endpoints[i] == r.endpoints[i] <==> EndpointPrintable(r.endpoints[i])
    {
      EndpointFixed(r.endpoints[i]);
    }
    forall i | 0 <= i < |r.binaries|
      ensures c.binaries[i] == r.binaries[i] <==> BinaryPrintable(fs, r.binaries[i])
    {
    }
    assert c == r <==> c.endpoints == r.endpoints && c.binaries == r.binaries;
  }

  lemma PrintedRuleHosts(r: Rule)
    ensures HostsOk(PrintRule(r)) <==> RuleHostsValid(r)
  {
    var eps := Get(PrintRule(r).endpoints, []);
    assert eps == MapSeq(PrintEndpoint, r.endpoints);
    forall i | 0 <= i < |r.endpoints|
      ensures HostOk(eps[i]) <==> !TldWildcard(r.endpoints[i].host)
    {
      assert eps[i] == PrintEndpoint(r.endpoints[i]);
    }
  }

  lemma PrintedHosts(p: SandboxPolicy)
    ensures Accepted(PrintPolicy(p)) <==> HostsValid(p)
  {
    var rules := Get(PrintPolicy(p).networkPolicies, map[]);
    assert rules.Keys == p.networkPolicies.Keys;
    forall k | k in p.networkPolicies
      ensures HostsOk(rules[k]) <==> RuleHostsValid(p.networkPolicies[k])
    {
      PrintedRuleHosts(p.networkPolicies[k]);
    }
  }

  lemma PolicyFixed(fs: Host, p: SandboxPolicy)
    ensures CanonPolicy(fs, p) == p <==> Printable(fs, p)
  {
    var c := CanonPolicy(fs, p);
    forall k | k in p.networkPolicies
      ensures c.networkPolicies[k] == p.networkPolicies[k] <==> RulePrintable(fs, p.networkPolicies[k])
    {
      RuleFixed(fs, p.networkPolicies[k]);
    }
    assert c == p <==> c.networkPolicies == p.networkPolicies;
    assert c.networkPolicies == p.networkPolicies
      <==> forall k :: k in p.networkPolicies ==> c.networkPolicies[k] == p.networkPolicies[k];
  }

  /**
   The round trip returns the same message exactly if no host is rejected and
   nothing outside the dict format is set.
   */
  lemma RoundTripExact(fs: Host, p: SandboxPolicy)
    ensures Accepted(PrintPolicy(p)) && ParsePolicy(fs, PrintPolicy(p)) == p
       <==> HostsValid(p) && Printable(fs, p)
  {
    PrintedHosts(p);
    PolicyRoundTrip(fs, p);
    PolicyFixed(fs, p);
  }

  // ----- Accepted dicts have a normal form -------------------------------

  lemma ParsedRulePrintable(fs: Host, d: RuleDict)
    requires RealPaths(fs)
    ensures RulePrintable(fs, ParseRule(fs, d))
    ensures HostsOk(d) ==> RuleHostsValid(ParseRule(fs, d))
  {
  }

  /** What the API shows for a policy dict it has accepted. */
  function NormalForm(fs: Host, d: PolicyDict): PolicyDict
  {
    PrintPolicy(ParsePolicy(fs, d))
  }

  /**
   Every accepted dict denotes a message that survives the round trip, so
   dict to message to dict is an idempotent normal form on accepted dicts and
   stays accepted.
   */
  lemma NormalFormIdempotent(fs: Host, d: PolicyDict)
    requires RealPaths(fs) && Accepted(d)
    ensures Accepted(NormalForm(fs, d))
    ensures ParsePolicy(fs, NormalForm(fs, d)) == ParsePolicy(fs, d)
    ensures NormalForm(fs, NormalForm(fs, d)) == NormalForm(fs, d)
  {
    var p := ParsePolicy(fs, d);
    forall k | k in p.networkPolicies
      ensures RulePrintable(fs, p.networkPolicies[k]) && RuleHostsValid(p.networkPolicies[k])
    {
      ParsedRulePrintable(fs, Get(d.networkPolicies, map[])[k]);
    }
    RoundTripExact(fs, p);
  }

  /** Two accepted dicts with the same normal form denote the same policy. */
  lemma NormalFormFaithful(fs: Host, d: PolicyDict, d': PolicyDict)
    requires RealPaths(fs) && Accepted(d) && Accepted(d')
    ensures NormalForm(fs, d) == NormalForm(fs, d') <==> ParsePolicy(fs, d) == ParsePolicy(fs, d')
  {
    NormalFormIdempotent(fs, d);
    NormalFormIdempotent(fs, d');
  }
}
