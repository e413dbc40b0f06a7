/** The pure launch helpers of lib/Proxy.js: the command-line flags passed to
    the proxy process, the default ProxyConfiguration and its validation. */
module Proxy {

  /** The JavaScript values a configuration field holds here. Numbers are
      integers (every number the configuration uses is). */
  datatype JsValue = Undefined | Null | Bool(b: bool) | Num(n: int) | Str(s: string) | Array(items: seq<string>)

  /** JavaScript truthiness. Arrays, even empty ones, are truthy. */
  predicate Truthy(v: JsValue) {
    match v
    case Undefined => false
    case Null => false
    case Bool(b) => b
    case Num(n) => n != 0
    case Str(s) => s != ""
    case Array(_) => true
  }

  /** The `typeof` operator. */
  function TypeOf(v: JsValue): string {
    match v
    case Undefined => "undefined"
    case Null => "object"
    case Bool(_) => "boolean"
    case Num(_) => "number"
    case Str(_) => "string"
    case Array(_) => "object"
  }

  function Digit(d: nat): char
    requires d < 10
  {
    "0123456789"[d]
  }

  /** The decimal form of a natural number. */
  function NatToString(n: nat): string
    decreases n
  {
    if n < 10 then [Digit(n)] else NatToString(n / 10) + [Digit(n % 10)]
  }

  /** `items.join(sep)`. */
  function Join(items: seq<string>, sep: string): string {
    if items == [] then "" else if |items| == 1 then items[0] else items[0] + sep + Join(items[1..], sep)
  }

  /** String conversion, as `" -helper-hosts " + v` performs it. */
  function ToString(v: JsValue): string {
    match v
    case Undefined => "undefined"
    case Null => "null"
    case Bool(b) => if b then "true" else "false"
    case Num(n) => if n < 0 then "-" + NatToString(-n) else NatToString(n)
    case Str(s) => s
    case Array(items) => Join(items, ",")
  }

  /** `s.indexOf(c)`: the first position of `c`, or -1. */
  function IndexOf(s: string, c: char): (r: int)
    ensures -1 <= r < |s|
    ensures r == -1 <==> c !in s
    ensures r >= 0 ==> s[r] == c && c !in s[..r]
  {
    if s == [] then -1
    else if s[0] == c then 0
    else
      var r := IndexOf(s[1..], c);
      assert s[1..][..if r >= 0 then r else 0] == s[1..if r >= 0 then r + 1 else 1];
      if r == -1 then -1 else r + 1
  }

  /** `s.substr(start)` for a start that is not negative. */
  function Substr(s: string, start: nat): string {
    if start <= |s| then s[start..] else ""
  }

  // ----- Flags -----------------------------------------------------------------

  /** `getPortFlag(hostPort)`: the port is what follows the first ':' (the whole
      string when there is none, as `indexOf` then answers -1). */
  function GetPortFlag(hostPort: string): string {
    var colon := IndexOf(hostPort, ':');
    var port := Substr(hostPort, colon + 1);
    if port != "" then " -port " + port else ""
  }

  /** `getStoreFlag(store)`. */
  function GetStoreFlag(store: JsValue): string {
    if TypeOf(store) == "string" && |store.s| > 0 then " -store " + store.s else ""
  }

  /** The indices `for (var _host in v)` visits, as strings: those of an array
      or a string. */
  function ForInKeys(v: JsValue): seq<string> {
    var n := match v
      case Array(items) => |items|
      case Str(s) => |s|
      case _ => 0;
    seq(n, i requires 0 <= i < n => NatToString(i))
  }

  /** What lines 75-79 would build: `hosts` starts undefined and each key is
      appended, separated by commas. */
  function ForInHosts(v: JsValue): string {
    "undefined" + Join(ForInKeys(v), ",")
  }

  /** `getHostsFlag(kvStoreHelperHosts)`, with its array branch as written. */
  function GetHostsFlag(hosts: JsValue): string {
    if Truthy(hosts) then
      var joined := if TypeOf(hosts) == "array" then ForInHosts(hosts) else ToString(hosts);
      " -helper-hosts " + joined
    else
      ""
  }

  // ----- Configuration ---------------------------------------------------------

  /** The properties of a ProxyConfiguration object; an absent one is Undefined. */
  datatype ProxyConfiguration = ProxyConfiguration(
    startProxy: JsValue,
    host: JsValue,
    KVCLIENT_JAR: JsValue,
    PROXY_HOME: JsValue,
    kvStoreName: JsValue,
    kvStoreHelperHosts: JsValue,
    readZones: JsValue,
    username: JsValue,
    security: JsValue,
    requestTimeout: JsValue,
    socketOpenTimeout: JsValue,
    socketReadTimeout: JsValue)

  /** `new ProxyConfiguration()`. `kvStoreHomeDir` is `process.env.KVSTORE_HOME_DIR`
      and `proxyHome` the normalized `kvmodule_dir + "/kvproxy/"`. */
  function DefaultConfiguration(kvStoreHomeDir: JsValue, proxyHome: string): ProxyConfiguration {
    ProxyConfiguration(
      Bool(false), Str("localhost:5010"),
      Str(ToString(kvStoreHomeDir) + "/dist/lib/kvclient.jar"), Str(proxyHome),
      Str("kvstore"), Str("localhost:5000"), Str(""), Str(""), Null,
      Num(1000), Num(1000), Num(1000))
  }

  /** The outcome of `validateConfiguration`: it returns, or throws an Error
      naming a property. */
  datatype Validation = Accepted | Rejected(field: string)

  /** `validateConfiguration(conf)`: `typeof x === 'undefined'` on ten
      properties in a fixed order; `username` and `security` are not checked. */
  function ValidateConfiguration(conf: ProxyConfiguration): Validation {
    if TypeOf(conf.startProxy) == "undefined" then Rejected("startProxy")
    else if TypeOf(conf.host) == "undefined" then Rejected("host")
    else if TypeOf(conf.KVCLIENT_JAR) == "undefined" then Rejected("KVCLIENT_JAR")
    else if TypeOf(conf.PROXY_HOME) == "undefined" then Rejected("PROXY_HOME")
    else if TypeOf(conf.kvStoreName) == "undefined" then Rejected("kvStoreName")
    else if TypeOf(conf.kvStoreHelperHosts) == "undefined" then Rejected("kvStoreHelperHosts")
    else if TypeOf(conf.readZones) == "undefined" then Rejected("readZones")
    else if TypeOf(conf.requestTimeout) == "undefined" then Rejected("requestTimeout")
    else if TypeOf(conf.socketOpenTimeout) == "undefined" then Rejected("socketOpenTimeout")
    else if TypeOf(conf.socketReadTimeout) == "undefined" then Rejected("socketReadTimeout")
    else Accepted
  }

  /** The checked properties, by name, in the order they are checked. */
  function CheckedFields(conf: ProxyConfiguration): seq<(string, JsValue)> {
    [("startProxy", conf.startProxy), ("host", conf.host), ("KVCLIENT_JAR", conf.KVCLIENT_JAR),
     ("PROXY_HOME", conf.PROXY_HOME), ("kvStoreName", conf.kvStoreName),
     ("kvStoreHelperHosts", conf.kvStoreHelperHosts), ("readZones", conf.readZones),
     ("requestTimeout", conf.requestTimeout), ("socketOpenTimeout", conf.socketOpenTimeout),
     ("socketReadTimeout", conf.socketReadTimeout)]
  }

  /** A reference definition: the first undefined field of a list from
      position `k` on, if any. */
  function FirstUndefined(fields: seq<(string, JsValue)>, k: nat): Validation
    requires k <= |fields|
    decreases |fields| - k
  {
    if k == |fields| then Accepted
    else if fields[k].1 == Undefined then Rejected(fields[k].0)
    else FirstUndefined(fields, k + 1)
  }

  // ----- Properties --------------------------------------------------------------

  /** The port flag carries exactly the text after the first ':'. */
  lemma PortFlagAfterFirstColon(host: string, port: string)
    requires ':' !in host
    ensures GetPortFlag(host + ":" + port) == if port == "" then "" else " -port " + port
  {
    var s := host + ":" + port;
    var colon := IndexOf(s, ':');
    assert s[|host|] == ':' && s[..|host|] == host;
    assert colon == |host|;
    assert s[|host| + 1..] == port;
  }

  /** Without a ':', the whole string is taken as the port. */
  lemma PortFlagWithoutColon(hostPort: string)
    requires ':' !in hostPort
    ensures GetPortFlag(hostPort) == if hostPort == "" then "" else " -port " + hostPort
  {
  }

  /** A store flag is produced exactly for a non-empty string. */
  lemma StoreFlagIff(store: JsValue)
    ensures GetStoreFlag(store) != "" <==> store.Str? && store.s != ""
    ensures store.Str? && store.s != "" ==> GetStoreFlag(store) == " -store " + store.s
  {
  }

  /** `typeof` never answers "array", so the array branch of getHostsFlag is
      dead: a truthy value is converted to a string like any other, and a
      falsy one gives no flag. */
  lemma HostsFlagBranch(hosts: JsValue)
    ensures TypeOf(hosts) != "array"
    ensures GetHostsFlag(hosts) == if Truthy(hosts) then " -helper-hosts " + ToString(hosts) else ""
  {
  }

  /** An array of helper hosts, even an empty one, is joined with commas. */
  lemma HostsFlagOfArray(items: seq<string>)
    ensures GetHostsFlag(Array(items)) == " -helper-hosts " + Join(items, ",")
  {
  }

  /** FirstUndefined accepts exactly when no field from `k` on is undefined,
      and otherwise names the first undefined one. */
  lemma {:induction false} FirstUndefinedSpec(fields: seq<(string, JsValue)>, k: nat)
    requires k <= |fields|
    ensures FirstUndefined(fields, k) == Accepted <==> forall i :: k <= i < |fields| ==> fields[i].1 != Undefined
    ensures FirstUndefined(fields, k).Rejected? ==>
      exists i :: k <= i < |fields| && fields[i].1 == Undefined && fields[i].0 == FirstUndefined(fields, k).field
        && forall j :: k <= j < i ==> fields[j].1 != Undefined
    decreases |fields| - k
  {
    if k < |fields| && fields[k].1 != Undefined {
      FirstUndefinedSpec(fields, k + 1);
    }
  }

  /** validateConfiguration rejects with the first undefined of the ten
      checked properties, in their order, and accepts when all are defined. */
  lemma ValidateIsFirstUndefined(conf: ProxyConfiguration)
    ensures ValidateConfiguration(conf) == FirstUndefined(CheckedFields(conf), 0)
  {
    var f := CheckedFields(conf);
    TypeOfUndefined(conf.socketReadTimeout);
    assert FirstUndefined(f, 9) == if conf.socketReadTimeout == Undefined then Rejected("socketReadTimeout") else FirstUndefined(f, 10);
    TypeOfUndefined(conf.socketOpenTimeout);
    assert FirstUndefined(f, 8) == if conf.socketOpenTimeout == Undefined then Rejected("socketOpenTimeout") else FirstUndefined(f, 9);
    TypeOfUndefined(conf.requestTimeout);
    assert FirstUndefined(f, 7) == if conf.requestTimeout == Undefined then Rejected("requestTimeout") else FirstUndefined(f, 8);
    TypeOfUndefined(conf.readZones);
    assert FirstUndefined(f, 6) == if conf.readZones == Undefined then Rejected("readZones") else FirstUndefined(f, 7);
    TypeOfUndefined(conf.kvStoreHelperHosts);
    assert FirstUndefined(f, 5) == if conf.kvStoreHelperHosts == Undefined then Rejected("kvStoreHelperHosts") else FirstUndefined(f, 6);
    TypeOfUndefined(conf.kvStoreName);
    assert FirstUndefined(f, 4) == if conf.kvStoreName == Undefined then Rejected("kvStoreName") else FirstUndefined(f, 5);
    TypeOfUndefined(conf.PROXY_HOME);
    assert FirstUndefined(f, 3) == if conf.PROXY_HOME == Undefined then Rejected("PROXY_HOME") else FirstUndefined(f, 4);
    TypeOfUndefined(conf.KVCLIENT_JAR);
    assert FirstUndefined(f, 2) == if conf.KVCLIENT_JAR == Undefined then Rejected("KVCLIENT_JAR") else FirstUndefined(f, 3);
    TypeOfUndefined(conf.host);
    assert FirstUndefined(f, 1) == if conf.host == Undefined then Rejected("host") else FirstUndefined(f, 2);
    TypeOfUndefined(conf.startProxy);
    assert FirstUndefined(f, 0) == if conf.startProxy == Undefined then Rejected("startProxy") else FirstUndefined(f, 1);
  }

  /** `typeof v === 'undefined'` holds of `undefined` only (not of `null`). */
  lemma TypeOfUndefined(v: JsValue)
    ensures TypeOf(v) == "undefined" <==> v == Undefined
  {
  }

  lemma ValidateAcceptsIff(conf: ProxyConfiguration)
    ensures ValidateConfiguration(conf) == Accepted <==>
      forall i :: 0 <= i < |CheckedFields(conf)| ==> CheckedFields(conf)[i].1 != Undefined
  {
    ValidateIsFirstUndefined(conf);
    FirstUndefinedSpec(CheckedFields(conf), 0);
  }

  /** A fresh ProxyConfiguration passes validation, whatever the environment. */
  lemma DefaultConfigurationValid(kvStoreHomeDir: JsValue, proxyHome: string)
    ensures ValidateConfiguration(DefaultConfiguration(kvStoreHomeDir, proxyHome)) == Accepted
  {
  }

  /** The helper-hosts flag of a fresh ProxyConfiguration. */
  lemma DefaultHostsFlag(kvStoreHomeDir: JsValue, proxyHome: string)
    ensures GetHostsFlag(DefaultConfiguration(kvStoreHomeDir, proxyHome).kvStoreHelperHosts)
      == " -helper-hosts localhost:5000"
  {
    var conf := DefaultConfiguration(kvStoreHomeDir, proxyHome);
    assert conf.kvStoreHelperHosts == Str("localhost:5000");
  }

  /** The store flag of a fresh ProxyConfiguration. */
  lemma DefaultStoreFlag(kvStoreHomeDir: JsValue, proxyHome: string)
    ensures GetStoreFlag(DefaultConfiguration(kvStoreHomeDir, proxyHome).kvStoreName) == " -store kvstore"
  {
    var conf := DefaultConfiguration(kvStoreHomeDir, proxyHome);
    assert conf.kvStoreName == Str("kvstore");
  }
}
