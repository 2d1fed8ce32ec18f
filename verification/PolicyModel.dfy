/**
 Sandbox policies in their two forms: the protobuf messages and the plain
 dicts that the REST, CLI and YAML layers exchange.

 In a dict every key may be absent (`None`); a message holds a value for every
 scalar, list and map, and only sub-messages have presence.
 */
module PolicyModel {
  import opened Wrappers

  type uint32 = x: int | 0 <= x < 0x1_0000_0000

  // ----- Messages --------------------------------------------------------

  datatype QueryMatcher = QueryMatcher(glob: string, anyOf: seq<string>)

  /** `L7Allow` and `L7DenyRule`, which have the same fields. */
  datatype L7Match = L7Match(
    httpMethod: string,
    path: string,
    command: string,
    operationType: string,
    operationName: string,
    fields: seq<string>,
    query: map<string, QueryMatcher>)

  datatype L7Rule = L7Rule(allow: Option<L7Match>)

  datatype GraphqlOperation = GraphqlOperation(operationType: string, operationName: string, fields: seq<string>)

  datatype Endpoint = Endpoint(
    host: string,
    port: uint32,
    protocol: string,
    tls: string,
    enforcement: string,
    access: string,
    rules: seq<L7Rule>,
    allowedIps: seq<string>,
    ports: seq<uint32>,
    denyRules: seq<L7Match>,
    allowEncodedSlash: bool,
    persistedQueries: string,
    graphqlMaxBodyBytes: uint32,
    path: string,
    graphqlPersistedQueries: map<string, GraphqlOperation>,
    websocketCredentialRewrite: bool,
    requestBodyCredentialRewrite: bool,
    advisorProposed: bool)

  datatype Binary = Binary(path: string, harness: bool)

  datatype Rule = Rule(name: string, endpoints: seq<Endpoint>, binaries: seq<Binary>)

  datatype Filesystem = Filesystem(includeWorkdir: bool, readOnly: seq<string>, readWrite: seq<string>)

  datatype Process = Process(runAsUser: string, runAsGroup: string)

  datatype Landlock = Landlock(compatibility: string)

  datatype SandboxPolicy = SandboxPolicy(
    version: uint32,
    filesystem: Option<Filesystem>,
    process: Option<Process>,
    landlock: Option<Landlock>,
    networkPolicies: map<string, Rule>)

  // ----- Dicts -----------------------------------------------------------

  datatype QueryDict = QueryDict(glob: Option<string>, anyOf: Option<seq<string>>)

  datatype L7Dict = L7Dict(
    httpMethod: Option<string>,
    path: Option<string>,
    command: Option<string>,
    operationType: Option<string>,
    operationName: Option<string>,
    fields: Option<seq<string>>,
    query: Option<map<string, QueryDict>>)

  datatype L7RuleDict = L7RuleDict(allow: Option<L7Dict>)

  datatype EndpointDict = EndpointDict(
    host: Option<string>,
    port: Option<uint32>,
    protocol: Option<string>,
    tls: Option<string>,
    enforcement: Option<string>,
    access: Option<string>,
    rules: Option<seq<L7RuleDict>>,
    allowedIps: Option<seq<string>>,
    ports: Option<seq<uint32>>,
    denyRules: Option<seq<L7Dict>>,
    allowEncodedSlash: Option<bool>,
    persistedQueries: Option<string>,
    graphqlMaxBodyBytes: Option<uint32>,
    path: Option<string>)

  datatype BinaryDict = BinaryDict(path: Option<string>)

  datatype RuleDict = RuleDict(
    name: Option<string>,
    endpoints: Option<seq<EndpointDict>>,
    binaries: Option<seq<BinaryDict>>)

  datatype FilesystemDict = FilesystemDict(
    includeWorkdir: Option<bool>,
    readOnly: Option<seq<string>>,
    readWrite: Option<seq<string>>)

  datatype ProcessDict = ProcessDict(runAsUser: Option<string>, runAsGroup: Option<string>)

  datatype LandlockDict = LandlockDict(compatibility: Option<string>)

  datatype PolicyDict = PolicyDict(
    version: Option<uint32>,
    filesystem: Option<FilesystemDict>,
    filesystemPolicy: Option<FilesystemDict>,
    process: Option<ProcessDict>,
    landlock: Option<LandlockDict>,
    networkPolicies: Option<map<string, RuleDict>>)

  const EMPTY_L7_DICT := L7Dict(None, None, None, None, None, None, None)
  const EMPTY_L7_MATCH := L7Match("", "", "", "", "", [], map[])
  const EMPTY_FILESYSTEM_DICT := FilesystemDict(None, None, None)

  /** `d.get(key, default)`. */
  function Get<T>(o: Option<T>, default: T): T
  {
    if o.Some? then o.value else default
  }

  /** A key that is printed only when its value is truthy. */
  function Printed<T(==)>(value: T, falsy: T): Option<T>
  {
    if value == falsy then None else Some(value)
  }

  function MapSeq<S, T>(f: S -> T, s: seq<S>): (t: seq<T>)
    ensures |t| == |s| && forall i :: 0 <= i < |s| ==> t[i] == f(s[i])
  {
    seq(|s|, i requires 0 <= i < |s| => f(s[i]))
  }
}
