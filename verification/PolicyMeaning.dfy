/**
 What a policy dict says, key by key, and which keys a printed policy has; the
 converters do exactly that.
 */
module PolicyMeaning {
  import opened Wrappers
  import opened PolicyModel
  import opened PolicyConverters

  // ----- Reading a dict --------------------------------------------------

  /** A field holds what its key says, and the protobuf zero value without one. */
  predicate Says<T(==)>(key: Option<T>, field: T, zero: T)
  {
    match key
    case Some(value) => field == value
    case None => field == zero
  }

  predicate SaysQuery(d: QueryDict, m: QueryMatcher)
  {
    Says(d.glob, m.glob, "") && Says(d.anyOf, m.anyOf, [])
  }

  predicate SaysL7(d: L7Dict, m: L7Match)
  {
    && Says(d.httpMethod, m.httpMethod, "") && Says(d.path, m.path, "") && Says(d.command, m.command, "")
    && Says(d.operationType, m.operationType, "") && Says(d.operationName, m.operationName, "")
    && Says(d.fields, m.fields, [])
    && match d.query
       case None => m.query == map[]
       case Some(query) => m.query.Keys == query.Keys && forall k :: k in query ==> SaysQuery(query[k], m.query[k])
  }

  /** A rule without `allow` allows whatever an empty match does. */
  predicate SaysL7Rule(d: L7RuleDict, r: L7Rule)
  {
    && r.allow.Some?
    && match d.allow
       case Some(allow) => SaysL7(allow, r.allow.value)
       case None => r.allow.value == L7Match("", "", "", "", "", [], map[])
  }

  predicate SaysL7Rules(d: Option<seq<L7RuleDict>>, rules: seq<L7Rule>)
  {
    match d
    case None => rules == []
    case Some(list) => |rules| == |list| && forall i :: 0 <= i < |list| ==> SaysL7Rule(list[i], rules[i])
  }

  predicate SaysL7Matches(d: Option<seq<L7Dict>>, matches: seq<L7Match>)
  {
    match d
    case None => matches == []
    case Some(list) => |matches| == |list| && forall i :: 0 <= i < |list| ==> SaysL7(list[i], matches[i])
  }

  predicate SaysEndpoint(d: EndpointDict, e: Endpoint)
  {
    && Says(d.host, e.host, "") && Says(d.port, e.port, 0) && Says(d.protocol, e.protocol, "") && Says(d.tls, e.tls, "")
    && Says(d.enforcement, e.enforcement, "") && Says(d.access, e.access, "")
    && SaysL7Rules(d.rules, e.rules) && SaysL7Matches(d.denyRules, e.denyRules)
    && Says(d.allowedIps, e.allowedIps, []) && Says(d.ports, e.ports, [])
    && Says(d.allowEncodedSlash, e.allowEncodedSlash, false) && Says(d.persistedQueries, e.persistedQueries, "")
    && Says(d.graphqlMaxBodyBytes, e.graphqlMaxBodyBytes, 0) && Says(d.path, e.path, "")
    && e.graphqlPersistedQueries == map[]
    && !e.websocketCredentialRewrite && !e.requestBodyCredentialRewrite && !e.advisorProposed
  }

  /** A binary is stored under the target of its path if that is a symlink. */
  predicate SaysBinary(fs: Host, d: BinaryDict, b: Binary)
  {
    && !b.harness
    && match d.path
       case None => b.path == ""
       case Some(path) => b.path == if path != "" && fs(path).SymlinkTo? then fs(path).target else path
  }

  predicate SaysRule(fs: Host, d: RuleDict, r: Rule)
  {
    && Says(d.name, r.name, "")
    && (match d.endpoints
        case None => r.endpoints == []
        case Some(list) =>
          |r.endpoints| == |list| && forall i :: 0 <= i < |list| ==> SaysEndpoint(list[i], r.endpoints[i]))
    && (match d.binaries
        case None => r.binaries == []
        case Some(list) =>
          |r.binaries| == |list| && forall i :: 0 <= i < |list| ==> SaysBinary(fs, list[i], r.binaries[i]))
  }

  predicate SaysFilesystem(d: FilesystemDict, f: Filesystem)
  {
    Says(d.includeWorkdir, f.includeWorkdir, false) && Says(d.readOnly, f.readOnly, [])
    && Says(d.readWrite, f.readWrite, [])
  }

  /** `filesystem` counts unless it is absent or an empty dict; then `filesystem_policy` does. */
  predicate SaysFilesystems(d: PolicyDict, f: Option<Filesystem>)
  {
    match (d.filesystem, d.filesystemPolicy)
    case (None, None) => f.None?
    case (Some(given), None) => f.Some? && SaysFilesystem(given, f.value)
    case (None, Some(alias)) => f.Some? && SaysFilesystem(alias, f.value)
    case (Some(given), Some(alias)) =>
      f.Some? && SaysFilesystem(if given == FilesystemDict(None, None, None) then alias else given, f.value)
  }

  predicate SaysPolicy(fs: Host, d: PolicyDict, p: SandboxPolicy)
  {
    && Says(d.version, p.version, 0)
    && SaysFilesystems(d, p.filesystem)
    && (match d.process
        case None => p.process.None?
        case Some(process) =>
          && p.process.Some? && Says(process.runAsUser, p.process.value.runAsUser, "")
          && Says(process.runAsGroup, p.process.value.runAsGroup, ""))
    && (match d.landlock
        case None => p.landlock.None?
        case Some(landlock) =>
          p.landlock.Some? && Says(landlock.compatibility, p.landlock.value.compatibility, ""))
    && (match d.networkPolicies
        case None => p.networkPolicies == map[]
        case Some(rules) =>
          && p.networkPolicies.Keys == rules.Keys
          && forall k :: k in rules ==> SaysRule(fs, rules[k], p.networkPolicies[k]))
  }

  lemma L7Says(d: L7Dict)
    ensures SaysL7(d, ParseL7(d))
  {
  }

  lemma EndpointSays(d: EndpointDict)
    ensures SaysEndpoint(d, ParseEndpoint(d))
  {
    var e := ParseEndpoint(d);
    forall i | d.rules.Some? && 0 <= i < |d.rules.value|
      ensures SaysL7Rule(d.rules.value[i], e.rules[i])
    {
      L7Says(Get(d.rules.value[i].allow, EMPTY_L7_DICT));
    }
    forall i | d.denyRules.Some? && 0 <= i < |d.denyRules.value|
      ensures SaysL7(d.denyRules.value[i], e.denyRules[i])
    {
      L7Says(d.denyRules.value[i]);
    }
  }

  lemma RuleSays(fs: Host, d: RuleDict)
    ensures SaysRule(fs, d, ParseRule(fs, d))
  {
    var r := ParseRule(fs, d);
    forall i | d.endpoints.Some? && 0 <= i < |d.endpoints.value|
      ensures SaysEndpoint(d.endpoints.value[i], r.endpoints[i])
    {
      EndpointSays(d.endpoints.value[i]);
    }
  }

  /** The parsed policy is what the dict says, key by key. */
  lemma ParsedSays(fs: Host, d: PolicyDict)
    ensures SaysPolicy(fs, d, ParsePolicy(fs, d))
  {
    forall k | d.networkPolicies.Some? && k in d.networkPolicies.value
      ensures SaysRule(fs, d.networkPolicies.value[k], ParsePolicy(fs, d).networkPolicies[k])
    {
      RuleSays(fs, d.networkPolicies.value[k]);
    }
  }

  /** A rejected host. */
  ghost predicate WildcardOverTld(host: Option<string>)
  {
    host.Some? && exists suffix: string :: host.value == "*." + suffix && '.' !in suffix
  }

  ghost predicate NoWildcards(endpoints: seq<EndpointDict>)
  {
    forall i :: 0 <= i < |endpoints| ==> !WildcardOverTld(endpoints[i].host)
  }

  lemma HostExactly(d: EndpointDict)
    ensures HostOk(d) <==> !WildcardOverTld(d.host)
  {
    TldWildcardMeaning(Get(d.host, ""));
  }

  /** No endpoint of the rule has such a host. */
  ghost predicate FreeOfWildcards(d: RuleDict)
  {
    d.endpoints.None? || NoWildcards(d.endpoints.value)
  }

  ghost predicate AllFree(rules: map<string, RuleDict>)
  {
    forall k :: k in rules ==> FreeOfWildcards(rules[k])
  }

  lemma HostsExactly(d: RuleDict)
    ensures HostsOk(d) <==> FreeOfWildcards(d)
  {
    if d.endpoints.Some? {
      var eps := d.endpoints.value;
      assert Get(d.endpoints, []) == eps;
      forall i | 0 <= i < |eps|
        ensures HostOk(eps[i]) <==> !WildcardOverTld(eps[i].host)
      {
        HostExactly(eps[i]);
      }
    }
  }

  /** A dict is accepted exactly if no endpoint of any rule has such a host. */
  lemma AcceptedExactly(d: PolicyDict)
    ensures Accepted(d) <==> d.networkPolicies.None? || AllFree(d.networkPolicies.value)
  {
    if d.networkPolicies.Some? {
      var rules := d.networkPolicies.value;
      assert Get(d.networkPolicies, map[]) == rules;
      forall k | k in rules
        ensures HostsOk(rules[k]) <==> FreeOfWildcards(rules[k])
      {
        HostsExactly(rules[k]);
      }
    }
  }

  // ----- A dict says one thing -------------------------------------------

  lemma L7SaysOne(d: L7Dict, m: L7Match, m': L7Match)
    requires SaysL7(d, m) && SaysL7(d, m')
    ensures m == m'
  {
    assert m.query.Keys == m'.query.Keys;
  }

  lemma EndpointSaysOne(d: EndpointDict, e: Endpoint, e': Endpoint)
    requires SaysEndpoint(d, e) && SaysEndpoint(d, e')
    ensures e == e'
  {
    forall i | 0 <= i < |e.rules|
      ensures e.rules[i] == e'.rules[i]
    {
      assert SaysL7Rule(d.rules.value[i], e.rules[i]) && SaysL7Rule(d.rules.value[i], e'.rules[i]);
      if d.rules.value[i].allow.Some? {
        L7SaysOne(d.rules.value[i].allow.value, e.rules[i].allow.value, e'.rules[i].allow.value);
      }
    }
    forall i | 0 <= i < |e.denyRules|
      ensures e.denyRules[i] == e'.denyRules[i]
    {
      L7SaysOne(d.denyRules.value[i], e.denyRules[i], e'.denyRules[i]);
    }
  }

  lemma RuleSaysOne(fs: Host, d: RuleDict, r: Rule, r': Rule)
    requires SaysRule(fs, d, r) && SaysRule(fs, d, r')
    ensures r == r'
  {
    forall i | 0 <= i < |r.endpoints|
      ensures r.endpoints[i] == r'.endpoints[i]
    {
      EndpointSaysOne(d.endpoints.value[i], r.endpoints[i], r'.endpoints[i]);
    }
    forall i | 0 <= i < |r.binaries|
      ensures r.binaries[i] == r'.binaries[i]
    {
      assert SaysBinary(fs, d.binaries.value[i], r.binaries[i]);
    }
  }

  /** The keys determine the policy: parsing is the only reading of a dict. */
  lemma ParsedExactly(fs: Host, d: PolicyDict, p: SandboxPolicy)
    ensures SaysPolicy(fs, d, p) <==> p == ParsePolicy(fs, d)
  {
    var q := ParsePolicy(fs, d);
    ParsedSays(fs, d);
    if SaysPolicy(fs, d, p) {
      forall k | k in p.networkPolicies
        ensures p.networkPolicies[k] == q.networkPolicies[k]
      {
        RuleSaysOne(fs, d.networkPolicies.value[k], p.networkPolicies[k], q.networkPolicies[k]);
      }
      assert p.networkPolicies.Keys == q.networkPolicies.Keys;
    }
  }

  // ----- Printing a message ----------------------------------------------

  /** The key is there exactly if the value is not the falsy one. */
  predicate Shows<T(==)>(value: T, key: Option<T>, falsy: T)
  {
    (key.Some? <==> value != falsy) && (key.Some? ==> key.value == value)
  }

  predicate ShowsQuery(m: QueryMatcher, d: QueryDict)
  {
    Shows(m.glob, d.glob, "") && Shows(m.anyOf, d.anyOf, [])
  }

  /** Method, path and command are always there. */
  predicate ShowsL7(m: L7Match, d: L7Dict)
  {
    && d.httpMethod == Some(m.httpMethod) && d.path == Some(m.path) && d.command == Some(m.command)
    && Shows(m.operationType, d.operationType, "") && Shows(m.operationName, d.operationName, "")
    && Shows(m.fields, d.fields, [])
    && (d.query.Some? <==> m.query != map[])
    && (d.query.Some? ==>
          d.query.value.Keys == m.query.Keys && forall k :: k in m.query ==> ShowsQuery(m.query[k], d.query.value[k]))
  }

  predicate ShowsL7Rule(r: L7Rule, d: L7RuleDict)
  {
    && d.allow.Some?
    && match r.allow
       case Some(allow) => ShowsL7(allow, d.allow.value)
       case None => ShowsL7(L7Match("", "", "", "", "", [], map[]), d.allow.value)
  }

  predicate ShowsL7Rules(rules: seq<L7Rule>, d: Option<seq<L7RuleDict>>)
  {
    && (d.Some? <==> rules != [])
    && (d.Some? ==> |d.value| == |rules| && forall i :: 0 <= i < |rules| ==> ShowsL7Rule(rules[i], d.value[i]))
  }

  predicate ShowsL7Matches(matches: seq<L7Match>, d: Option<seq<L7Dict>>)
  {
    && (d.Some? <==> matches != [])
    && (d.Some? ==> |d.value| == |matches| && forall i :: 0 <= i < |matches| ==> ShowsL7(matches[i], d.value[i]))
  }

  /** Host and port are always there. */
  predicate ShowsEndpoint(e: Endpoint, d: EndpointDict)
  {
    && d.host == Some(e.host) && d.port == Some(e.port)
    && Shows(e.protocol, d.protocol, "") && Shows(e.tls, d.tls, "")
    && Shows(e.enforcement, d.enforcement, "") && Shows(e.access, d.access, "")
    && ShowsL7Rules(e.rules, d.rules) && ShowsL7Matches(e.denyRules, d.denyRules)
    && Shows(e.allowedIps, d.allowedIps, []) && Shows(e.ports, d.ports, [])
    && Shows(e.allowEncodedSlash, d.allowEncodedSlash, false) && Shows(e.persistedQueries, d.persistedQueries, "")
    && Shows(e.graphqlMaxBodyBytes, d.graphqlMaxBodyBytes, 0) && Shows(e.path, d.path, "")
  }

  predicate ShowsRule(r: Rule, d: RuleDict)
  {
    && d.name == Some(r.name)
    && d.endpoints.Some? && |d.endpoints.value| == |r.endpoints|
    && (forall i :: 0 <= i < |r.endpoints| ==> ShowsEndpoint(r.endpoints[i], d.endpoints.value[i]))
    && d.binaries.Some? && |d.binaries.value| == |r.binaries|
    && (forall i :: 0 <= i < |r.binaries| ==> d.binaries.value[i].path == Some(r.binaries[i].path))
  }

  /** The version is always there, sub-messages and rules exactly if the policy has any; never `filesystem_policy`. */
  predicate ShowsPolicy(p: SandboxPolicy, d: PolicyDict)
  {
    && d.version == Some(p.version) && d.filesystemPolicy.None?
    && (d.filesystem.Some? <==> p.filesystem.Some?)
    && (d.filesystem.Some? ==>
          && d.filesystem.value.includeWorkdir == Some(p.filesystem.value.includeWorkdir)
          && d.filesystem.value.readOnly == Some(p.filesystem.value.readOnly)
          && d.filesystem.value.readWrite == Some(p.filesystem.value.readWrite))
    && (d.process.Some? <==> p.process.Some?)
    && (d.process.Some? ==>
          && d.process.value.runAsUser == Some(p.process.value.runAsUser)
          && d.process.value.runAsGroup == Some(p.process.value.runAsGroup))
    && (d.landlock.Some? <==> p.landlock.Some?)
    && (d.landlock.Some? ==> d.landlock.value.compatibility == Some(p.landlock.value.compatibility))
    && (d.networkPolicies.Some? <==> p.networkPolicies != map[])
    && (d.networkPolicies.Some? ==>
          && d.networkPolicies.value.Keys == p.networkPolicies.Keys
          && forall k :: k in p.networkPolicies ==> ShowsRule(p.networkPolicies[k], d.networkPolicies.value[k]))
  }

  lemma L7Shows(m: L7Match)
    ensures ShowsL7(m, PrintL7(m))
  {
  }

  lemma EndpointShows(e: Endpoint)
    ensures ShowsEndpoint(e, PrintEndpoint(e))
  {
    forall i | 0 <= i < |e.rules|
      ensures ShowsL7Rule(e.rules[i], PrintL7Rule(e.rules[i]))
    {
      L7Shows(Get(e.rules[i].allow, EMPTY_L7_MATCH));
    }
    forall i | 0 <= i < |e.denyRules|
      ensures ShowsL7(e.denyRules[i], PrintL7(e.denyRules[i]))
    {
      L7Shows(e.denyRules[i]);
    }
  }

  lemma RuleShows(r: Rule)
    ensures ShowsRule(r, PrintRule(r))
  {
    forall i | 0 <= i < |r.endpoints|
      ensures ShowsEndpoint(r.endpoints[i], PrintEndpoint(r.endpoints[i]))
    {
      EndpointShows(r.endpoints[i]);
    }
  }

  /** The printed dict has the keys the policy calls for, and no others. */
  lemma PrintedShows(p: SandboxPolicy)
    ensures ShowsPolicy(p, PrintPolicy(p))
  {
    forall k | k in p.networkPolicies
      ensures ShowsRule(p.networkPolicies[k], PrintRule(p.networkPolicies[k]))
    {
      RuleShows(p.networkPolicies[k]);
    }
  }
}
