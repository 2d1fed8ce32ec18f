/**
 Dict to message (shoreguard/client/_converters.py) and message to dict
 (shoreguard/client/policies.py).
 */
module PolicyConverters {
  import opened Wrappers
  import opened PolicyModel

  // ----- Validation and symlinks -----------------------------------------

  /** `_validate_host_pattern` raises for exactly these hosts. */
  predicate TldWildcard(host: string)
  {
    2 <= |host| && host[..2] == "*." && '.' !in host[2..]
  }

  lemma TldWildcardMeaning(host: string)
    ensures TldWildcard(host) <==> exists suffix: string :: host == "*." + suffix && '.' !in suffix
  {
  }

  /** What the control-plane host knows about a path. */
  datatype PathKind = Plain | SymlinkTo(target: string) | StatFails

  type Host = string -> PathKind

  /** `_resolve_binary_path`. */
  function Resolve(fs: Host, path: string): string
  {
    if path == "" then path
    else
      match fs(path)
      case SymlinkTo(target) => target
      case _ => path
  }

  /** `os.path.realpath` never returns a symlink. */
  ghost predicate RealPaths(fs: Host)
  {
    forall p, q :: fs(p) == SymlinkTo(q) ==> q != "" && !fs(q).SymlinkTo?
  }

  lemma ResolveSettles(fs: Host, path: string)
    requires RealPaths(fs)
    ensures Resolve(fs, path) == if path != "" && fs(path).SymlinkTo? then fs(path).target else path
    ensures Resolve(fs, Resolve(fs, path)) == Resolve(fs, path)
  {
  }

  // ----- Dict to message -------------------------------------------------

  function ParseQuery(d: QueryDict): QueryMatcher
  {
    QueryMatcher(Get(d.glob, ""), Get(d.anyOf, []))
  }

  function ParseQueries(d: map<string, QueryDict>): map<string, QueryMatcher>
  {
    map k | k in d :: ParseQuery(d[k])
  }

  /** `_dict_to_l7_allow` and `_dict_to_l7_deny`. */
  function ParseL7(d: L7Dict): L7Match
  {
    L7Match(
      Get(d.httpMethod, ""), Get(d.path, ""), Get(d.command, ""),
      Get(d.operationType, ""), Get(d.operationName, ""), Get(d.fields, []),
      if d.query.Some? then ParseQueries(d.query.value) else map[])
  }

  function ParseL7Rule(d: L7RuleDict): L7Rule
  {
    L7Rule(Some(ParseL7(Get(d.allow, EMPTY_L7_DICT))))
  }

  predicate HostOk(d: EndpointDict)
  {
    !TldWildcard(Get(d.host, ""))
  }

  /** The endpoint built from an accepted dict; fields it cannot name keep their defaults. */
  function ParseEndpoint(d: EndpointDict): Endpoint
  {
    Endpoint(
      Get(d.host, ""), Get(d.port, 0), Get(d.protocol, ""), Get(d.tls, ""),
      Get(d.enforcement, ""), Get(d.access, ""),
      MapSeq(ParseL7Rule, Get(d.rules, [])),
      Get(d.allowedIps, []), Get(d.ports, []),
      MapSeq(ParseL7, Get(d.denyRules, [])),
      Get(d.allowEncodedSlash, false), Get(d.persistedQueries, ""),
      Get(d.graphqlMaxBodyBytes, 0), Get(d.path, ""),
      map[], false, false, false)
  }

  function ParseBinary(fs: Host): BinaryDict -> Binary
  {
    (d: BinaryDict) => Binary(Resolve(fs, Get(d.path, "")), false)
  }

  predicate HostsOk(d: RuleDict)
  {
    forall i :: 0 <= i < |Get(d.endpoints, [])| ==> HostOk(Get(d.endpoints, [])[i])
  }

  /** The host of the first endpoint that validation rejects. */
  ghost predicate FirstBadHost(endpoints: seq<EndpointDict>, host: string)
  {
    exists i :: 0 <= i < |endpoints|
             && !HostOk(endpoints[i]) && host == Get(endpoints[i].host, "")
             && forall j :: 0 <= j < i ==> HostOk(endpoints[j])
  }

  /** There is one exactly if some host is rejected, and only one. */
  lemma FirstBadHostExactly(endpoints: seq<EndpointDict>, host: string, host': string)
    ensures FirstBadHost(endpoints, host) && FirstBadHost(endpoints, host') ==> host == host'
    ensures (exists i :: 0 <= i < |endpoints| && !HostOk(endpoints[i])) ==> exists h :: FirstBadHost(endpoints, h)
    ensures FirstBadHost(endpoints, host) ==> TldWildcard(host)
  {
    if i :| 0 <= i < |endpoints| && !HostOk(endpoints[i]) {
      var n := 0;
      while HostOk(endpoints[n])
        invariant 0 <= n <= i && forall j :: 0 <= j < n ==> HostOk(endpoints[j])
        decreases i - n
      {
        n := n + 1;
      }
      assert FirstBadHost(endpoints, Get(endpoints[n].host, ""));
    }
  }

  function ParseRule(fs: Host, d: RuleDict): Rule
  {
    Rule(
      Get(d.name, ""),
      MapSeq(ParseEndpoint, Get(d.endpoints, [])),
      MapSeq(ParseBinary(fs), Get(d.binaries, [])))
  }

  function ParseFilesystem(d: FilesystemDict): Filesystem
  {
    Filesystem(Get(d.includeWorkdir, false), Get(d.readOnly, []), Get(d.readWrite, []))
  }

  /** `data.get("filesystem") or data.get("filesystem_policy", {})`: an empty dict is falsy. */
  function FilesystemSource(d: PolicyDict): FilesystemDict
  {
    if d.filesystem.Some? && d.filesystem.value != EMPTY_FILESYSTEM_DICT then d.filesystem.value
    else Get(d.filesystemPolicy, EMPTY_FILESYSTEM_DICT)
  }

  predicate Accepted(d: PolicyDict)
  {
    var rules := Get(d.networkPolicies, map[]);
    forall k :: k in rules ==> HostsOk(rules[k])
  }

  function ParseRules(fs: Host, d: map<string, RuleDict>): map<string, Rule>
  {
    map k | k in d :: ParseRule(fs, d[k])
  }

  function ParsePolicy(fs: Host, d: PolicyDict): SandboxPolicy
  {
    SandboxPolicy(
      Get(d.version, 0),
      if d.filesystem.Some? || d.filesystemPolicy.Some? then Some(ParseFilesystem(FilesystemSource(d))) else None,
      if d.process.Some?
      then Some(Process(Get(d.process.value.runAsUser, ""), Get(d.process.value.runAsGroup, "")))
      else None,
      if d.landlock.Some? then Some(Landlock(Get(d.landlock.value.compatibility, ""))) else None,
      ParseRules(fs, Get(d.networkPolicies, map[])))
  }

  // ----- Message to dict -------------------------------------------------

  function PrintQuery(m: QueryMatcher): QueryDict
  {
    QueryDict(Printed(m.glob, ""), Printed(m.anyOf, []))
  }

  function PrintQueries(m: map<string, QueryMatcher>): map<string, QueryDict>
  {
    map k | k in m :: PrintQuery(m[k])
  }

  function PrintL7(m: L7Match): L7Dict
  {
    L7Dict(
      Some(m.httpMethod), Some(m.path), Some(m.command),
      Printed(m.operationType, ""), Printed(m.operationName, ""), Printed(m.fields, []),
      if m.query == map[] then None else Some(PrintQueries(m.query)))
  }

  /** Reading an absent `allow` yields the default message, so it is printed as one. */
  function PrintL7Rule(r: L7Rule): L7RuleDict
  {
    L7RuleDict(Some(PrintL7(Get(r.allow, EMPTY_L7_MATCH))))
  }

  function PrintEndpoint(e: Endpoint): EndpointDict
  {
    EndpointDict(
      Some(e.host), Some(e.port), Printed(e.protocol, ""), Printed(e.tls, ""),
      Printed(e.enforcement, ""), Printed(e.access, ""),
      if e.rules == [] then None else Some(MapSeq(PrintL7Rule, e.rules)),
      Printed(e.allowedIps, []), Printed(e.ports, []),
      if e.denyRules == [] then None else Some(MapSeq(PrintL7, e.denyRules)),
      Printed(e.allowEncodedSlash, false), Printed(e.persistedQueries, ""),
      Printed(e.graphqlMaxBodyBytes, 0), Printed(e.path, ""))
  }

  function PrintBinary(b: Binary): BinaryDict
  {
    BinaryDict(Some(b.path))
  }

  function PrintRule(r: Rule): RuleDict
  {
    RuleDict(Some(r.name), Some(MapSeq(PrintEndpoint, r.endpoints)), Some(MapSeq(PrintBinary, r.binaries)))
  }

  function PrintRules(m: map<string, Rule>): map<string, RuleDict>
  {
    map k | k in m :: PrintRule(m[k])
  }

  function PrintPolicy(p: SandboxPolicy): PolicyDict
  {
    PolicyDict(
      Some(p.version),
      if p.filesystem.Some?
      then Some(FilesystemDict(
                  Some(p.filesystem.value.includeWorkdir),
                  Some(p.filesystem.value.readOnly),
                  Some(p.filesystem.value.readWrite)))
      else None,
      None,
      if p.process.Some?
      then Some(ProcessDict(Some(p.process.value.runAsUser), Some(p.process.value.runAsGroup)))
      else None,
      if p.landlock.Some? then Some(LandlockDict(Some(p.landlock.value.compatibility))) else None,
      if p.networkPolicies == map[] then None else Some(PrintRules(p.networkPolicies)))
  }

  // ----- The loops of the source -----------------------------------------

  /** `_dict_to_l7_query`. */
  method DictToL7Query(d: map<string, QueryDict>) returns (result: map<string, QueryMatcher>)
    ensures result == ParseQueries(d)
  {
    result := map[];
    var keys := d.Keys;
    while keys != {}
      invariant keys <= d.Keys
      invariant result == map k | k in d && k !in keys :: ParseQuery(d[k])
      decreases |keys|
    {
      var key :| key in keys;
      result := result[key := QueryMatcher(Get(d[key].glob, ""), Get(d[key].anyOf, []))];
      keys := keys - {key};
    }
  }

  /** `_dict_to_network_rule`: stops at the first endpoint whose host is a TLD wildcard. */
  method DictToNetworkRule(fs: Host, d: RuleDict) returns (r: Result<Rule, string>)
    ensures r.Ok? <==> HostsOk(d)
    ensures r.Ok? ==> r.value == ParseRule(fs, d)
    ensures r.Err? ==> FirstBadHost(Get(d.endpoints, []), r.error)
  {
    var endpoints, binaries := [], [];
    var eps := Get(d.endpoints, []);
    for i := 0 to |eps|
      invariant |endpoints| == i
      invariant forall j :: 0 <= j < i ==> HostOk(eps[j]) && endpoints[j] == ParseEndpoint(eps[j])
    {
      var host := Get(eps[i].host, "");
      if TldWildcard(host) {
        return Err(host);
      }
      var ep := BuildEndpoint(eps[i]);
      endpoints := endpoints + [ep];
    }
    var bins := Get(d.binaries, []);
    for i := 0 to |bins|
      invariant |binaries| == i
      invariant forall j :: 0 <= j < i ==> binaries[j] == ParseBinary(fs)(bins[j])
    {
      var resolved := Resolve(fs, Get(bins[i].path, ""));
      binaries := binaries + [Binary(resolved, false)];
    }
    r := Ok(Rule(Get(d.name, ""), endpoints, binaries));
  }

  /** Body of the endpoint loop: scalars first, then the appended rules and deny rules. */
  method BuildEndpoint(d: EndpointDict) returns (ep: Endpoint)
    ensures ep == ParseEndpoint(d)
  {
    ep := Endpoint(
      Get(d.host, ""), Get(d.port, 0), Get(d.protocol, ""), Get(d.tls, ""),
      Get(d.enforcement, ""), Get(d.access, ""), [],
      Get(d.allowedIps, []), Get(d.ports, []), [],
      Get(d.allowEncodedSlash, false), Get(d.persistedQueries, ""),
      Get(d.graphqlMaxBodyBytes, 0), Get(d.path, ""),
      map[], false, false, false);
    var rules: seq<L7Rule> := [];
    for i := 0 to |Get(d.rules, [])|
      invariant |rules| == i
      invariant forall j :: 0 <= j < i ==> rules[j] == ParseL7Rule(Get(d.rules, [])[j])
    {
      rules := rules + [L7Rule(Some(ParseL7(Get(Get(d.rules, [])[i].allow, EMPTY_L7_DICT))))];
    }
    var denyRules: seq<L7Match> := [];
    for i := 0 to |Get(d.denyRules, [])|
      invariant |denyRules| == i
      invariant forall j :: 0 <= j < i ==> denyRules[j] == ParseL7(Get(d.denyRules, [])[j])
    {
      denyRules := denyRules + [ParseL7(Get(d.denyRules, [])[i])];
    }
    ep := ep.(rules := rules, denyRules := denyRules);
  }

  /** `_dict_to_policy`; the dict's iteration order only decides which bad host is reported. */
  method DictToPolicy(fs: Host, d: PolicyDict) returns (r: Result<SandboxPolicy, string>)
    ensures r.Ok? <==> Accepted(d)
    ensures r.Ok? ==> r.value == ParsePolicy(fs, d)
    ensures r.Err? ==> TldWildcard(r.error)
  {
    var policy := SandboxPolicy(0, None, None, None, map[]);
    if d.version.Some? {
      policy := policy.(version := d.version.value);
    }
    if d.filesystem.Some? || d.filesystemPolicy.Some? {
      var source := FilesystemSource(d);
      policy := policy.(filesystem := Some(Filesystem(
        Get(source.includeWorkdir, false), Get(source.readOnly, []), Get(source.readWrite, []))));
    }
    if d.process.Some? {
      policy := policy.(process := Some(Process(
        Get(d.process.value.runAsUser, ""), Get(d.process.value.runAsGroup, ""))));
    }
    if d.landlock.Some? {
      policy := policy.(landlock := Some(Landlock(Get(d.landlock.value.compatibility, ""))));
    }
    if d.networkPolicies.Some? {
      var rules := d.networkPolicies.value;
      var parsed := DictToRules(fs, rules);
      if parsed.Err? {
        return Err(parsed.error);
      }
      policy := policy.(networkPolicies := parsed.value);
    }
    r := Ok(policy);
  }

  /** The loop over `network_policies`. */
  method DictToRules(fs: Host, rules: map<string, RuleDict>) returns (r: Result<map<string, Rule>, string>)
    ensures r.Ok? <==> forall k :: k in rules ==> HostsOk(rules[k])
    ensures r.Ok? ==> r.value == ParseRules(fs, rules)
    ensures r.Err? ==> TldWildcard(r.error)
  {
    var result: map<string, Rule> := map[];
    var keys := rules.Keys;
    while keys != {}
      invariant keys <= rules.Keys
      invariant forall k :: k in rules && k !in keys ==> HostsOk(rules[k])
      invariant result == map k | k in rules && k !in keys :: ParseRule(fs, rules[k])
      decreases |keys|
    {
      var key :| key in keys;
      var rule := DictToNetworkRule(fs, rules[key]);
      if rule.Err? {
        return Err(rule.error);
      }
      result := result[key := rule.value];
      keys := keys - {key};
    }
    r := Ok(result);
  }

  /** `_network_rule_to_dict`. */
  method NetworkRuleToDict(rule: Rule) returns (result: RuleDict)
    ensures result == PrintRule(rule)
  {
    var endpoints, binaries := [], [];
    for i := 0 to |rule.endpoints|
      invariant |endpoints| == i
      invariant forall j :: 0 <= j < i ==> endpoints[j] == PrintEndpoint(rule.endpoints[j])
    {
      var d := EndpointToDict(rule.endpoints[i]);
      endpoints := endpoints + [d];
    }
    for i := 0 to |rule.binaries|
      invariant |binaries| == i
      invariant forall j :: 0 <= j < i ==> binaries[j] == PrintBinary(rule.binaries[j])
    {
      binaries := binaries + [BinaryDict(Some(rule.binaries[i].path))];
    }
    assert endpoints == MapSeq(PrintEndpoint, rule.endpoints) && binaries == MapSeq(PrintBinary, rule.binaries);
    result := RuleDict(Some(rule.name), Some(endpoints), Some(binaries));
  }

  /** Body of the endpoint loop: host and port always, the other keys when truthy. */
  method EndpointToDict(ep: Endpoint) returns (d: EndpointDict)
    ensures d == PrintEndpoint(ep)
  {
    var rules := L7RulesToList(ep.rules);
    var denyRules := DenyRulesToList(ep.denyRules);
    d := EndpointDict(
      Some(ep.host), Some(ep.port), Printed(ep.protocol, ""), Printed(ep.tls, ""),
      Printed(ep.enforcement, ""), Printed(ep.access, ""),
      if ep.rules != [] then Some(rules) else None,
      Printed(ep.allowedIps, []), Printed(ep.ports, []),
      if ep.denyRules != [] then Some(denyRules) else None,
      Printed(ep.allowEncodedSlash, false), Printed(ep.persistedQueries, ""),
      Printed(ep.graphqlMaxBodyBytes, 0), Printed(ep.path, ""));
  }

  method L7RulesToList(rules: seq<L7Rule>) returns (list: seq<L7RuleDict>)
    ensures list == MapSeq(PrintL7Rule, rules)
  {
    list := [];
    for i := 0 to |rules|
      invariant |list| == i
      invariant forall j :: 0 <= j < i ==> list[j] == PrintL7Rule(rules[j])
    {
      list := list + [L7RuleDict(Some(PrintL7(Get(rules[i].allow, EMPTY_L7_MATCH))))];
    }
  }

  method DenyRulesToList(rules: seq<L7Match>) returns (list: seq<L7Dict>)
    ensures list == MapSeq(PrintL7, rules)
  {
    list := [];
    for i := 0 to |rules|
      invariant |list| == i
      invariant forall j :: 0 <= j < i ==> list[j] == PrintL7(rules[j])
    {
      list := list + [PrintL7(rules[i])];
    }
  }

  /** `_policy_to_dict`. */
  method PolicyToDict(p: SandboxPolicy) returns (result: PolicyDict)
    ensures result == PrintPolicy(p)
  {
    result := PolicyDict(Some(p.version), None, None, None, None, None);
    if p.filesystem.Some? {
      var fs := p.filesystem.value;
      var d := FilesystemDict(Some(fs.includeWorkdir), Some(fs.readOnly), Some(fs.readWrite));
      result := result.(filesystem := Some(d));
    }
    if p.process.Some? {
      var d := ProcessDict(Some(p.process.value.runAsUser), Some(p.process.value.runAsGroup));
      result := result.(process := Some(d));
    }
    if p.landlock.Some? {
      result := result.(landlock := Some(LandlockDict(Some(p.landlock.value.compatibility))));
    }
    var printed: map<string, RuleDict> := map[];
    var keys := p.networkPolicies.Keys;
    while keys != {}
      invariant keys <= p.networkPolicies.Keys
      invariant printed == map k | k in p.networkPolicies && k !in keys :: PrintRule(p.networkPolicies[k])
      decreases |keys|
    {
      var key :| key in keys;
      var rule := NetworkRuleToDict(p.networkPolicies[key]);
      printed := printed[key := rule];
      keys := keys - {key};
    }
    assert printed == PrintRules(p.networkPolicies);
    if printed != map[] {
      result := result.(networkPolicies := Some(printed));
    }
    assert printed == map[] <==> p.networkPolicies == map[] by {
      assert printed.Keys == p.networkPolicies.Keys;
    }
  }
}
