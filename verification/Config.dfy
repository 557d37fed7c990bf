/** Building a sender's configuration from a parsed configuration string. */
module Config {
  import opened Outcomes
  import opened ConfigNumbers

  // ----- Write-once settings -----

  /** A setting remembers whether its value is a default or was given by the user. */
  datatype Setting<T> = Defaulted(value: T) | Specified(value: T)

  /** `set_specified`: a default gives way, a given value can only be given again. */
  function SetSpecified<T(==)>(s: Setting<T>, value: T): Result<Setting<T>, ErrorCode> {
    match s
    case Defaulted(_) => Ok(Specified(value))
    case Specified(current) => if current == value then Ok(s) else Err(ConfigError)
  }

  /** Setting never changes what was specified. */
  predicate Kept<T(==)>(before: Setting<T>, after: Setting<T>) {
    before.Specified? ==> after == before
  }

  // ----- The builder -----

  datatype Protocol = Tcp | Tcps | Http | Https

  predicate TlsEnabled(p: Protocol) { p.Tcps? || p.Https? }

  predicate IsTcpx(p: Protocol) { p.Tcp? || p.Tcps? }

  predicate IsHttpx(p: Protocol) { p.Http? || p.Https? }

  function DefaultPort(p: Protocol): string { if IsTcpx(p) then "9009" else "9000" }

  datatype CertificateAuthority = WebpkiRoots | OsRoots | WebpkiAndOsRoots | PemFile

  /** How the library was compiled, and which certificate files can be opened. */
  datatype Environment = Environment(
    webpkiCerts: bool,
    nativeCerts: bool,
    insecureSkipVerify: bool,
    ilpOverHttp: bool,
    readable: set<string>)

  /** Durations are in milliseconds. */
  datatype HttpConfig = HttpConfig(
    requestMinThroughput: Setting<nat>,
    retryTimeout: Setting<nat>,
    requestTimeout: Setting<nat>)

  datatype SenderBuilder = SenderBuilder(
    protocol: Protocol,
    host: Setting<string>,
    port: Setting<string>,
    netInterface: Setting<Option<string>>,
    maxBufSize: Setting<nat>,
    authTimeout: Setting<nat>,
    username: Setting<Option<string>>,
    password: Setting<Option<string>>,
    token: Setting<Option<string>>,
    tokenX: Setting<Option<string>>,
    tokenY: Setting<Option<string>>,
    tlsVerify: Setting<bool>,
    tlsCa: Setting<CertificateAuthority>,
    tlsRoots: Setting<Option<string>>,
    http: Option<HttpConfig>)

  function NewBuilder(env: Environment, protocol: Protocol, host: string, port: string): SenderBuilder {
    SenderBuilder(
      protocol, Specified(host), Specified(port),
      Defaulted(None), Defaulted(100 * 1024 * 1024), Defaulted(15_000),
      Defaulted(None), Defaulted(None), Defaulted(None), Defaulted(None), Defaulted(None),
      Defaulted(true),
      Defaulted(if env.webpkiCerts then WebpkiRoots else if env.nativeCerts then OsRoots else PemFile),
      Defaulted(None),
      if IsHttpx(protocol) then Some(HttpConfig(Defaulted(102400), Defaulted(10_000), Defaulted(10_000))) else None)
  }

  // ----- The setters -----

  type Built = Result<SenderBuilder, ErrorCode>

  /** Control characters may not appear in a value. */
  predicate ValidValue(s: string) {
    forall i :: 0 <= i < |s| ==> !(s[i] as int <= 0x1F || 0x7F <= s[i] as int <= 0x9F)
  }

  function Text(s: string): Result<Option<string>, ErrorCode> {
    if ValidValue(s) then Ok(Some(s)) else Err(ConfigError)
  }

  function BindInterface(b: SenderBuilder, addr: string): Built {
    if !IsTcpx(b.protocol) then Err(ConfigError)
    else
      var value :- Text(addr);
      var setting :- SetSpecified(b.netInterface, value);
      Ok(b.(netInterface := setting))
  }

  function Username(b: SenderBuilder, s: string): Built {
    var value :- Text(s);
    var setting :- SetSpecified(b.username, value);
    Ok(b.(username := setting))
  }

  function Password(b: SenderBuilder, s: string): Built {
    var value :- Text(s);
    var setting :- SetSpecified(b.password, value);
    Ok(b.(password := setting))
  }

  function Token(b: SenderBuilder, s: string): Built {
    var value :- Text(s);
    var setting :- SetSpecified(b.token, value);
    Ok(b.(token := setting))
  }

  function TokenX(b: SenderBuilder, s: string): Built {
    var value :- Text(s);
    var setting :- SetSpecified(b.tokenX, value);
    Ok(b.(tokenX := setting))
  }

  function TokenY(b: SenderBuilder, s: string): Built {
    var value :- Text(s);
    var setting :- SetSpecified(b.tokenY, value);
    Ok(b.(tokenY := setting))
  }

  function AuthTimeout(b: SenderBuilder, ms: nat): Built {
    var setting :- SetSpecified(b.authTimeout, ms);
    Ok(b.(authTimeout := setting))
  }

  function TlsVerify(b: SenderBuilder, verify: bool): Built {
    if !TlsEnabled(b.protocol) then Err(ConfigError)
    else
      var setting :- SetSpecified(b.tlsVerify, verify);
      Ok(b.(tlsVerify := setting))
  }

  function TlsCa(b: SenderBuilder, ca: CertificateAuthority): Built {
    if !TlsEnabled(b.protocol) then Err(ConfigError)
    else
      var setting :- SetSpecified(b.tlsCa, ca);
      Ok(b.(tlsCa := setting))
  }

  /** Also sets the authority to `PemFile`: the one field that two keys write. */
  function TlsRoots(env: Environment, b: SenderBuilder, path: string): Built {
    var b' :- TlsCa(b, PemFile);
    if path !in env.readable then Err(ConfigError)
    else
      var setting :- SetSpecified(b'.tlsRoots, Some(path));
      Ok(b'.(tlsRoots := setting))
  }

  function MaxBufSize(b: SenderBuilder, size: nat): Built {
    if size < 1024 then Err(ConfigError)
    else
      var setting :- SetSpecified(b.maxBufSize, size);
      Ok(b.(maxBufSize := setting))
  }

  function RetryTimeout(b: SenderBuilder, ms: nat): Built {
    match b.http
    case None => Err(ConfigError)
    case Some(http) =>
      var setting :- SetSpecified(http.retryTimeout, ms);
      Ok(b.(http := Some(http.(retryTimeout := setting))))
  }

  function RequestMinThroughput(b: SenderBuilder, rate: nat): Built {
    match b.http
    case None => Err(ConfigError)
    case Some(http) =>
      var setting :- SetSpecified(http.requestMinThroughput, rate);
      Ok(b.(http := Some(http.(requestMinThroughput := setting))))
  }

  function RequestTimeout(b: SenderBuilder, ms: nat): Built {
    match b.http
    case None => Err(ConfigError)
    case Some(http) =>
      if ms == 0 then Err(ConfigError)
      else
        var setting :- SetSpecified(http.requestTimeout, ms);
        Ok(b.(http := Some(http.(requestTimeout := setting))))
  }

  // ----- Parameters -----

  /** The keys the configuration string knows; every other key is `Unknown` and ignored. */
  datatype Key =
    | KeyAddr | KeyAutoFlush | KeyAutoFlushRows | KeyAutoFlushBytes
    | KeyUsername | KeyPassword | KeyToken | KeyTokenX | KeyTokenY | KeyBindInterface
    | KeyInitBufSize | KeyMaxBufSize | KeyAuthTimeout
    | KeyTlsVerify | KeyTlsCa | KeyTlsRoots | KeyTlsRootsPassword
    | KeyRequestMinThroughput | KeyRequestTimeout | KeyRetryTimeout
    | Unknown(name: string)

  type Params = map<Key, string>

  function ParseCa(env: Environment, s: string): Result<CertificateAuthority, ErrorCode> {
    if s == "webpki_roots" && env.webpkiCerts then Ok(WebpkiRoots)
    else if s == "os_roots" && env.nativeCerts then Ok(OsRoots)
    else if s == "webpki_and_os_roots" && env.webpkiCerts && env.nativeCerts then Ok(WebpkiAndOsRoots)
    else Err(ConfigError)
  }

  function ParseVerify(s: string): Result<bool, ErrorCode> {
    if s == "on" then Ok(true) else if s == "unsafe_off" then Ok(false) else Err(ConfigError)
  }

  /** One round of the loop over the parameters. */
  function ApplyParam(env: Environment, b: SenderBuilder, key: Key, val: string): Built {
    match key
    case KeyUsername => Username(b, val)
    case KeyPassword => Password(b, val)
    case KeyToken => Token(b, val)
    case KeyTokenX => TokenX(b, val)
    case KeyTokenY => TokenY(b, val)
    case KeyBindInterface => BindInterface(b, val)
    case KeyInitBufSize => Err(ConfigError)
    case KeyMaxBufSize => var n :- ParseNumber(val); MaxBufSize(b, n)
    case KeyAuthTimeout => var ms :- ParseNumber(val); AuthTimeout(b, ms)
    case KeyTlsVerify =>
      var verify :- ParseVerify(val);
      if env.insecureSkipVerify then TlsVerify(b, verify)
      else if verify then Ok(b)
      else Err(ConfigError)
    case KeyTlsCa => var ca :- ParseCa(env, val); TlsCa(b, ca)
    case KeyTlsRoots => TlsRoots(env, b, val)
    case KeyTlsRootsPassword => Err(ConfigError)
    case KeyRequestMinThroughput =>
      if !env.ilpOverHttp then Ok(b) else var n :- ParseNumber(val); RequestMinThroughput(b, n)
    case KeyRequestTimeout =>
      if !env.ilpOverHttp then Ok(b) else var ms :- ParseNumber(val); RequestTimeout(b, ms)
    case KeyRetryTimeout =>
      if !env.ilpOverHttp then Ok(b) else var ms :- ParseNumber(val); RetryTimeout(b, ms)
    case _ => Ok(b)
  }

  /** The loop, for one order in which the hash map may yield its keys. */
  function ApplyAll(env: Environment, b: SenderBuilder, params: Params, order: seq<Key>): Built
    requires forall i :: 0 <= i < |order| ==> order[i] in params
  {
    if order == [] then Ok(b)
    else
      var last := order[|order| - 1];
      var b' :- ApplyAll(env, b, params, order[..|order| - 1]);
      ApplyParam(env, b', last, params[last])
  }

  // ----- What the loop computes, without an order -----

  /** The keys whose value alone can make the configuration fail. */
  predicate KeyIsFine(env: Environment, protocol: Protocol, key: Key, val: string) {
    match key
    case KeyUsername => ValidValue(val)
    case KeyPassword => ValidValue(val)
    case KeyToken => ValidValue(val)
    case KeyTokenX => ValidValue(val)
    case KeyTokenY => ValidValue(val)
    case KeyBindInterface => IsTcpx(protocol) && ValidValue(val)
    case KeyInitBufSize => false
    case KeyMaxBufSize => ParseNumber(val).Ok? && ParseNumber(val).value >= 1024
    case KeyAuthTimeout => ParseNumber(val).Ok?
    case KeyTlsVerify =>
      && ParseVerify(val).Ok?
      && (if env.insecureSkipVerify then TlsEnabled(protocol) else ParseVerify(val).value)
    case KeyTlsCa => TlsEnabled(protocol) && ParseCa(env, val).Ok?
    case KeyTlsRoots => TlsEnabled(protocol) && val in env.readable
    case KeyTlsRootsPassword => false
    case KeyRequestMinThroughput => env.ilpOverHttp ==> IsHttpx(protocol) && ParseNumber(val).Ok?
    case KeyRequestTimeout =>
      env.ilpOverHttp ==> IsHttpx(protocol) && ParseNumber(val).Ok? && ParseNumber(val).value > 0
    case KeyRetryTimeout => env.ilpOverHttp ==> IsHttpx(protocol) && ParseNumber(val).Ok?
    case _ => true
  }

  /**
    A set of parameters is acceptable if each is fine by itself and the two keys
    that write the same field are not both there: no `tls_ca` means `PemFile`.
   */
  predicate Acceptable(env: Environment, protocol: Protocol, params: Params, keys: set<Key>)
    requires keys <= params.Keys
  {
    && (forall k :: k in keys ==> KeyIsFine(env, protocol, k, params[k]))
    && !(KeyTlsCa in keys && KeyTlsRoots in keys)
  }

  function Get(params: Params, key: Key): string { if key in params then params[key] else "" }

  function OrElse<T, E>(r: Result<T, E>, otherwise: T): T { if r.Ok? then r.value else otherwise }

  function TextSetting(params: Params, keys: set<Key>, key: Key, before: Setting<Option<string>>)
    : Setting<Option<string>>
  {
    if key in keys then Specified(Some(Get(params, key))) else before
  }

  function NumberSetting(params: Params, keys: set<Key>, key: Key, before: Setting<nat>): Setting<nat> {
    if key in keys then Specified(OrElse(ParseNumber(Get(params, key)), 0)) else before
  }

  function VerifySetting(env: Environment, params: Params, keys: set<Key>, before: Setting<bool>): Setting<bool> {
    if KeyTlsVerify in keys && env.insecureSkipVerify
    then Specified(OrElse(ParseVerify(Get(params, KeyTlsVerify)), true))
    else before
  }

  function CaSetting(env: Environment, params: Params, keys: set<Key>, before: Setting<CertificateAuthority>)
    : Setting<CertificateAuthority>
  {
    if KeyTlsRoots in keys then Specified(PemFile)
    else if KeyTlsCa in keys then Specified(OrElse(ParseCa(env, Get(params, KeyTlsCa)), PemFile))
    else before
  }

  function HttpSettings(env: Environment, params: Params, keys: set<Key>, before: Option<HttpConfig>)
    : Option<HttpConfig>
  {
    match before
    case None => None
    case Some(http) =>
      if !env.ilpOverHttp then before
      else Some(HttpConfig(
        NumberSetting(params, keys, KeyRequestMinThroughput, http.requestMinThroughput),
        NumberSetting(params, keys, KeyRetryTimeout, http.retryTimeout),
        NumberSetting(params, keys, KeyRequestTimeout, http.requestTimeout)))
  }

  /** The builder after the parameters `keys`: every field named by a key has that key's value. */
  function Configured(env: Environment, b: SenderBuilder, params: Params, keys: set<Key>): SenderBuilder {
    SenderBuilder(
      b.protocol, b.host, b.port,
      TextSetting(params, keys, KeyBindInterface, b.netInterface),
      NumberSetting(params, keys, KeyMaxBufSize, b.maxBufSize),
      NumberSetting(params, keys, KeyAuthTimeout, b.authTimeout),
      TextSetting(params, keys, KeyUsername, b.username),
      TextSetting(params, keys, KeyPassword, b.password),
      TextSetting(params, keys, KeyToken, b.token),
      TextSetting(params, keys, KeyTokenX, b.tokenX),
      TextSetting(params, keys, KeyTokenY, b.tokenY),
      VerifySetting(env, params, keys, b.tlsVerify),
      CaSetting(env, params, keys, b.tlsCa),
      TextSetting(params, keys, KeyTlsRoots, b.tlsRoots),
      HttpSettings(env, params, keys, b.http))
  }

  /** Only the constructor has touched the builder: every field that a key can write is a default. */
  predicate Untouched(b: SenderBuilder) {
    && b.netInterface.Defaulted? && b.maxBufSize.Defaulted? && b.authTimeout.Defaulted?
    && b.username.Defaulted? && b.password.Defaulted?
    && b.token.Defaulted? && b.tokenX.Defaulted? && b.tokenY.Defaulted?
    && b.tlsVerify.Defaulted? && b.tlsCa.Defaulted? && b.tlsRoots.Defaulted?
    && (b.http.Some? <==> IsHttpx(b.protocol))
    && (b.http.Some? ==>
          && b.http.value.requestMinThroughput.Defaulted?
          && b.http.value.retryTimeout.Defaulted?
          && b.http.value.requestTimeout.Defaulted?)
  }

  /** The new key would write a field that another key has written with another value. */
  predicate Clashes(keys: set<Key>, key: Key) {
    (key == KeyTlsCa && KeyTlsRoots in keys) || (key == KeyTlsRoots && KeyTlsCa in keys)
  }

  predicate IsTextKey(key: Key) {
    key.KeyUsername? || key.KeyPassword? || key.KeyToken? || key.KeyTokenX? || key.KeyTokenY? || key.KeyBindInterface?
  }

  predicate IsHttpKey(key: Key) {
    key.KeyRequestMinThroughput? || key.KeyRequestTimeout? || key.KeyRetryTimeout?
  }

  lemma OneMoreText(env: Environment, b: SenderBuilder, params: Params, keys: set<Key>, key: Key)
    requires IsTextKey(key)
    requires Untouched(b) && key in params && key !in keys
    requires KeyTlsCa in keys ==> ParseCa(env, Get(params, KeyTlsCa)).Ok?
    ensures ApplyParam(env, Configured(env, b, params, keys), key, params[key])
         == if KeyIsFine(env, b.protocol, key, params[key]) && !Clashes(keys, key)
            then Ok(Configured(env, b, params, keys + {key}))
            else Err(ConfigError)
  {
  }

  lemma OneMoreHttp(env: Environment, b: SenderBuilder, params: Params, keys: set<Key>, key: Key)
    requires IsHttpKey(key)
    requires Untouched(b) && key in params && key !in keys
    requires KeyTlsCa in keys ==> ParseCa(env, Get(params, KeyTlsCa)).Ok?
    ensures ApplyParam(env, Configured(env, b, params, keys), key, params[key])
         == if KeyIsFine(env, b.protocol, key, params[key]) && !Clashes(keys, key)
            then Ok(Configured(env, b, params, keys + {key}))
            else Err(ConfigError)
  {
  }

  lemma OneMoreOther(env: Environment, b: SenderBuilder, params: Params, keys: set<Key>, key: Key)
    requires !IsTextKey(key) && !IsHttpKey(key)
    requires Untouched(b) && key in params && key !in keys
    requires KeyTlsCa in keys ==> ParseCa(env, Get(params, KeyTlsCa)).Ok?
    ensures ApplyParam(env, Configured(env, b, params, keys), key, params[key])
         == if KeyIsFine(env, b.protocol, key, params[key]) && !Clashes(keys, key)
            then Ok(Configured(env, b, params, keys + {key}))
            else Err(ConfigError)
  {
  }

  /** One more key, on top of any set of keys it is not in. */
  lemma OneMoreKey(env: Environment, b: SenderBuilder, params: Params, keys: set<Key>, key: Key)
    requires Untouched(b) && key in params && key !in keys
    requires KeyTlsCa in keys ==> ParseCa(env, Get(params, KeyTlsCa)).Ok?
    ensures ApplyParam(env, Configured(env, b, params, keys), key, params[key])
         == if KeyIsFine(env, b.protocol, key, params[key]) && !Clashes(keys, key)
            then Ok(Configured(env, b, params, keys + {key}))
            else Err(ConfigError)
  {
    if IsTextKey(key) {
      OneMoreText(env, b, params, keys, key);
    } else if IsHttpKey(key) {
      OneMoreHttp(env, b, params, keys, key);
    } else {
      OneMoreOther(env, b, params, keys, key);
    }
  }

  // ----- Any order -----

  predicate Distinct(order: seq<Key>) {
    forall i, j :: 0 <= i < j < |order| ==> order[i] != order[j]
  }

  function KeysOf(order: seq<Key>): set<Key> { set k | k in order }

  /** What the parameters `keys` amount to, whatever order they are applied in. */
  function Verdict(env: Environment, b: SenderBuilder, params: Params, keys: set<Key>): Built
    requires keys <= params.Keys
  {
    if Acceptable(env, b.protocol, params, keys) then Ok(Configured(env, b, params, keys)) else Err(ConfigError)
  }

  lemma NoKeys(env: Environment, b: SenderBuilder, params: Params)
    ensures Configured(env, b, params, {}) == b
  {
  }

  lemma AcceptableMore(env: Environment, protocol: Protocol, params: Params, keys: set<Key>, key: Key)
    requires keys <= params.Keys && key in params && key !in keys
    ensures Acceptable(env, protocol, params, keys + {key}) <==>
            && Acceptable(env, protocol, params, keys)
            && KeyIsFine(env, protocol, key, params[key])
            && !Clashes(keys, key)
  {
    var more := keys + {key};
    assert key in more && forall k :: k in keys ==> k in more;
  }

  lemma VerdictMore(env: Environment, b: SenderBuilder, params: Params, keys: set<Key>, key: Key)
    requires Untouched(b) && keys <= params.Keys && key in params && key !in keys
    ensures
      Verdict(env, b, params, keys + {key}) ==
        match Verdict(env, b, params, keys)
        case Err(e) => Err(e)
        case Ok(b') => ApplyParam(env, b', key, params[key])
  {
    AcceptableMore(env, b.protocol, params, keys, key);
    if Acceptable(env, b.protocol, params, keys) {
      OneMoreKey(env, b, params, keys, key);
    }
  }

  /** Every order of the keys gives the same verdict, which does not mention the order. */
  lemma {:induction false} OrderIsIrrelevant(env: Environment, b: SenderBuilder, params: Params, order: seq<Key>)
    requires Untouched(b) && Distinct(order)
    requires forall i :: 0 <= i < |order| ==> order[i] in params
    ensures KeysOf(order) <= params.Keys
    ensures ApplyAll(env, b, params, order) == Verdict(env, b, params, KeysOf(order))
  {
    if order == [] {
      NoKeys(env, b, params);
      assert KeysOf(order) == {};
    } else {
      var init, last := order[..|order| - 1], order[|order| - 1];
      OrderIsIrrelevant(env, b, params, init);
      assert order == init + [last];
      assert KeysOf(order) == KeysOf(init) + {last};
      VerdictMore(env, b, params, KeysOf(init), last);
    }
  }

  /**
    Confluence: two orders in which a map may yield its keys either both fail or
    both succeed with equal builders.
   */
  lemma OrdersAgree(env: Environment, b: SenderBuilder, params: Params, order1: seq<Key>, order2: seq<Key>)
    requires Untouched(b)
    requires Distinct(order1) && KeysOf(order1) == params.Keys
    requires Distinct(order2) && KeysOf(order2) == params.Keys
    ensures forall i :: 0 <= i < |order1| ==> order1[i] in params
    ensures forall i :: 0 <= i < |order2| ==> order2[i] in params
    ensures ApplyAll(env, b, params, order1) == ApplyAll(env, b, params, order2)
  {
    forall i | 0 <= i < |order1|
      ensures order1[i] in params
    {
      assert order1[i] in KeysOf(order1);
    }
    forall i | 0 <= i < |order2|
      ensures order2[i] in params
    {
      assert order2[i] in KeysOf(order2);
    }
    OrderIsIrrelevant(env, b, params, order1);
    OrderIsIrrelevant(env, b, params, order2);
  }

  // ----- From a configuration string -----

  function ProtocolOf(env: Environment, service: string): Result<Protocol, ErrorCode> {
    if service == "tcp" then Ok(Tcp)
    else if service == "tcps" then Ok(Tcps)
    else if service == "http" && env.ilpOverHttp then Ok(Http)
    else if service == "https" && env.ilpOverHttp then Ok(Https)
    else Err(ConfigError)
  }

  /** The text before the first colon and the text after it, if there is a colon. */
  function SplitAtColon(s: string): (r: Option<(string, string)>)
    ensures r.None? <==> ':' !in s
    ensures r.Some? ==> s == r.value.0 + ":" + r.value.1 && ':' !in r.value.0
  {
    if s == "" then None
    else if s[0] == ':' then Some(("", s[1..]))
    else
      match SplitAtColon(s[1..])
      case None => None
      case Some((before, after)) => Some(([s[0]] + before, after))
  }

  /** This client has no auto-flush, so it may only be turned off. */
  predicate AutoFlushIsOff(params: Params) {
    && (KeyAutoFlush in params ==> params[KeyAutoFlush] == "off")
    && KeyAutoFlushRows !in params
    && KeyAutoFlushBytes !in params
  }

  /** The builder before any parameter is applied. */
  function StartBuilder(env: Environment, service: string, params: Params): Built {
    var protocol :- ProtocolOf(env, service);
    if KeyAddr !in params then Err(ConfigError)
    else
      var (host, port) := match SplitAtColon(params[KeyAddr])
        case Some(pair) => pair
        case None => (params[KeyAddr], DefaultPort(protocol));
      if AutoFlushIsOff(params) then Ok(NewBuilder(env, protocol, host, port)) else Err(ConfigError)
  }

  // ----- What a configuration string means -----

  predicate Schema(service: string, p: Protocol) {
    match p
    case Tcp => service == "tcp"
    case Tcps => service == "tcps"
    case Http => service == "http"
    case Https => service == "https"
  }

  /** The host is what stands before the first colon; without a colon the port is the protocol's own. */
  predicate Address(addr: string, p: Protocol, host: string, port: string) {
    if ':' in addr then addr == host + ":" + port && ':' !in host
    else host == addr && port == if p in {Tcp, Tcps} then "9009" else "9000"
  }

  predicate IsPrintable(s: string) { forall c :: c in s ==> ' ' <= c <= '~' || c as int >= 0xA0 }

  predicate NamesAuthority(env: Environment, s: string, ca: CertificateAuthority) {
    match ca
    case WebpkiRoots => s == "webpki_roots" && env.webpkiCerts
    case OsRoots => s == "os_roots" && env.nativeCerts
    case WebpkiAndOsRoots => s == "webpki_and_os_roots" && env.webpkiCerts && env.nativeCerts
    case PemFile => false
  }

  /** The values a key takes, for a protocol. */
  ghost predicate Takes(env: Environment, p: Protocol, key: Key, val: string) {
    match key
    case KeyUsername => IsPrintable(val)
    case KeyPassword => IsPrintable(val)
    case KeyToken => IsPrintable(val)
    case KeyTokenX => IsPrintable(val)
    case KeyTokenY => IsPrintable(val)
    case KeyBindInterface => p in {Tcp, Tcps} && IsPrintable(val)
    case KeyAutoFlush => val == "off"
    case KeyAutoFlushRows => false
    case KeyAutoFlushBytes => false
    case KeyInitBufSize => false
    case KeyTlsRootsPassword => false
    case KeyMaxBufSize => exists n :: n >= 1024 && Writes(val, n)
    case KeyAuthTimeout => exists n :: Writes(val, n)
    case KeyTlsVerify =>
      if env.insecureSkipVerify then p in {Tcps, Https} && (val == "on" || val == "unsafe_off") else val == "on"
    case KeyTlsCa => p in {Tcps, Https} && exists ca :: NamesAuthority(env, val, ca)
    case KeyTlsRoots => p in {Tcps, Https} && val in env.readable
    case KeyRequestMinThroughput => env.ilpOverHttp ==> p in {Http, Https} && exists n :: Writes(val, n)
    case KeyRetryTimeout => env.ilpOverHttp ==> p in {Http, Https} && exists n :: Writes(val, n)
    case KeyRequestTimeout => env.ilpOverHttp ==> p in {Http, Https} && exists n :: n > 0 && Writes(val, n)
    case KeyAddr => true
    case Unknown(_) => true
  }

  ghost predicate AllTaken(env: Environment, p: Protocol, params: Params) {
    forall k :: k in params ==> Takes(env, p, k, params[k])
  }

  /** The configuration strings that are accepted. */
  ghost predicate IsProper(env: Environment, service: string, params: Params) {
    && KeyAddr in params
    && !(KeyTlsCa in params && KeyTlsRoots in params)
    && exists p :: Schema(service, p) && (p in {Http, Https} ==> env.ilpOverHttp) && AllTaken(env, p, params)
  }

  predicate TextFrom(params: Params, key: Key, setting: Setting<Option<string>>) {
    setting == if key in params then Specified(Some(params[key])) else Defaulted(None)
  }

  ghost predicate NumberFrom(params: Params, key: Key, setting: Setting<nat>, otherwise: nat) {
    if key in params then setting.Specified? && Writes(params[key], setting.value) else setting == Defaulted(otherwise)
  }

  predicate AuthorityFrom(env: Environment, params: Params, setting: Setting<CertificateAuthority>) {
    if KeyTlsRoots in params then setting == Specified(PemFile)
    else if KeyTlsCa in params then setting.Specified? && NamesAuthority(env, params[KeyTlsCa], setting.value)
    else setting == Defaulted(if env.webpkiCerts then WebpkiRoots else if env.nativeCerts then OsRoots else PemFile)
  }

  ghost predicate HttpFrom(params: Params, http: HttpConfig) {
    && NumberFrom(params, KeyRequestMinThroughput, http.requestMinThroughput, 102_400)
    && NumberFrom(params, KeyRetryTimeout, http.retryTimeout, 10_000)
    && NumberFrom(params, KeyRequestTimeout, http.requestTimeout, 10_000)
  }

  predicate TextsFrom(params: Params, b: SenderBuilder) {
    && TextFrom(params, KeyUsername, b.username) && TextFrom(params, KeyPassword, b.password)
    && TextFrom(params, KeyToken, b.token)
    && TextFrom(params, KeyTokenX, b.tokenX) && TextFrom(params, KeyTokenY, b.tokenY)
    && TextFrom(params, KeyBindInterface, b.netInterface) && TextFrom(params, KeyTlsRoots, b.tlsRoots)
  }

  ghost predicate NumbersFrom(params: Params, b: SenderBuilder) {
    && NumberFrom(params, KeyMaxBufSize, b.maxBufSize, 104_857_600)
    && NumberFrom(params, KeyAuthTimeout, b.authTimeout, 15_000)
    && (b.http.Some? ==> HttpFrom(params, b.http.value))
  }

  predicate TlsFrom(env: Environment, params: Params, b: SenderBuilder) {
    && b.tlsVerify == (if KeyTlsVerify in params && env.insecureSkipVerify
                       then Specified(params[KeyTlsVerify] == "on") else Defaulted(true))
    && AuthorityFrom(env, params, b.tlsCa)
  }

  predicate AddressFrom(service: string, addr: string, b: SenderBuilder) {
    && Schema(service, b.protocol)
    && b.host.Specified? && b.port.Specified?
    && Address(addr, b.protocol, b.host.value, b.port.value)
    && (b.http.Some? <==> b.protocol in {Http, Https})
  }

  /** The builder says what the string says, and has the documented defaults for the rest. */
  ghost predicate Means(env: Environment, service: string, params: Params, b: SenderBuilder)
    requires KeyAddr in params
  {
    && AddressFrom(service, params[KeyAddr], b)
    && TextsFrom(params, b) && NumbersFrom(params, b) && TlsFrom(env, params, b)
  }

  lemma NumberIsWritten(s: string)
    ensures ParseNumber(s).Ok? ==> Writes(s, ParseNumber(s).value)
    ensures forall n: nat :: Writes(s, n) ==> ParseNumber(s) == Ok(n)
  {
    if ParseNumber(s).Ok? {
      NumbersParse(s, ParseNumber(s).value);
    }
    forall n: nat | Writes(s, n)
      ensures ParseNumber(s) == Ok(n)
    {
      NumbersParse(s, n);
    }
  }

  lemma AuthorityIsNamed(env: Environment, s: string)
    ensures ParseCa(env, s).Ok? ==> NamesAuthority(env, s, ParseCa(env, s).value)
    ensures forall ca :: NamesAuthority(env, s, ca) ==> ParseCa(env, s) == Ok(ca)
  {
  }

  lemma PrintableIsValid(s: string)
    ensures IsPrintable(s) <==> ValidValue(s)
  {
    if ValidValue(s) {
      forall c | c in s
        ensures ' ' <= c <= '~' || c as int >= 0xA0
      {
        var i :| 0 <= i < |s| && s[i] == c;
      }
    }
    if IsPrintable(s) {
      forall i | 0 <= i < |s|
        ensures !(s[i] as int <= 0x1F || 0x7F <= s[i] as int <= 0x9F)
      {
        assert s[i] in s;
      }
    }
  }

  predicate IsAutoFlushKey(key: Key) {
    key == KeyAutoFlush || key == KeyAutoFlushRows || key == KeyAutoFlushBytes
  }

  lemma FineIsTaken(env: Environment, p: Protocol, key: Key, val: string)
    requires !IsAutoFlushKey(key)
    ensures KeyIsFine(env, p, key, val) <==> Takes(env, p, key, val)
  {
    NumberIsWritten(val);
    AuthorityIsNamed(env, val);
    PrintableIsValid(val);
  }

  lemma AllFineIsAllTaken(env: Environment, p: Protocol, params: Params)
    ensures AllTaken(env, p, params) <==>
            AutoFlushIsOff(params) && forall k :: k in params ==> KeyIsFine(env, p, k, params[k])
  {
    forall k | k in params && !IsAutoFlushKey(k)
      ensures KeyIsFine(env, p, k, params[k]) <==> Takes(env, p, k, params[k])
    {
      FineIsTaken(env, p, k, params[k]);
    }
    if AllTaken(env, p, params) {
      assert KeyAutoFlush in params ==> Takes(env, p, KeyAutoFlush, params[KeyAutoFlush]);
      assert KeyAutoFlushRows in params ==> Takes(env, p, KeyAutoFlushRows, params[KeyAutoFlushRows]);
      assert KeyAutoFlushBytes in params ==> Takes(env, p, KeyAutoFlushBytes, params[KeyAutoFlushBytes]);
    }
  }

  lemma SchemaIsProtocol(env: Environment, service: string, p: Protocol)
    ensures ProtocolOf(env, service) == Ok(p) <==> Schema(service, p) && (p in {Http, Https} ==> env.ilpOverHttp)
  {
  }

  lemma AcceptableIsProper(env: Environment, service: string, params: Params)
    ensures IsProper(env, service, params) <==>
            && StartBuilder(env, service, params).Ok?
            && Acceptable(env, StartBuilder(env, service, params).value.protocol, params, params.Keys)
  {
    forall p
      ensures ProtocolOf(env, service) == Ok(p) <==> Schema(service, p) && (p in {Http, Https} ==> env.ilpOverHttp)
      ensures AllTaken(env, p, params) <==>
              AutoFlushIsOff(params) && forall k :: k in params ==> KeyIsFine(env, p, k, params[k])
    {
      SchemaIsProtocol(env, service, p);
      AllFineIsAllTaken(env, p, params);
    }
  }

  lemma StartIsMeant(env: Environment, service: string, params: Params)
    requires StartBuilder(env, service, params).Ok?
    ensures
      var b := StartBuilder(env, service, params).value;
      && KeyAddr in params && AddressFrom(service, params[KeyAddr], b)
      && b == NewBuilder(env, b.protocol, b.host.value, b.port.value)
      && (b.http.Some? ==> env.ilpOverHttp)
  {
  }

  lemma TextsAreMeant(env: Environment, params: Params, p: Protocol, host: string, port: string)
    ensures TextsFrom(params, Configured(env, NewBuilder(env, p, host, port), params, params.Keys))
  {
  }

  lemma TlsIsMeant(env: Environment, params: Params, p: Protocol, host: string, port: string)
    requires Acceptable(env, p, params, params.Keys)
    ensures TlsFrom(env, params, Configured(env, NewBuilder(env, p, host, port), params, params.Keys))
  {
    if KeyTlsVerify in params {
      assert KeyIsFine(env, p, KeyTlsVerify, params[KeyTlsVerify]);
    }
    if KeyTlsCa in params {
      assert KeyIsFine(env, p, KeyTlsCa, params[KeyTlsCa]);
      AuthorityIsNamed(env, params[KeyTlsCa]);
    }
  }

  lemma NumberIsMeant(env: Environment, p: Protocol, params: Params, key: Key, otherwise: nat)
    requires Acceptable(env, p, params, params.Keys)
    requires key == KeyMaxBufSize || key == KeyAuthTimeout || (IsHttpKey(key) && env.ilpOverHttp)
    ensures NumberFrom(params, key, NumberSetting(params, params.Keys, key, Defaulted(otherwise)), otherwise)
  {
    if key in params {
      assert KeyIsFine(env, p, key, params[key]);
      NumberIsWritten(params[key]);
    }
  }

  lemma NumbersAreMeant(env: Environment, params: Params, p: Protocol, host: string, port: string)
    requires Acceptable(env, p, params, params.Keys) && (IsHttpx(p) ==> env.ilpOverHttp)
    ensures NumbersFrom(params, Configured(env, NewBuilder(env, p, host, port), params, params.Keys))
  {
    NumberIsMeant(env, p, params, KeyMaxBufSize, 104_857_600);
    NumberIsMeant(env, p, params, KeyAuthTimeout, 15_000);
    if IsHttpx(p) {
      NumberIsMeant(env, p, params, KeyRequestMinThroughput, 102_400);
      NumberIsMeant(env, p, params, KeyRetryTimeout, 10_000);
      NumberIsMeant(env, p, params, KeyRequestTimeout, 10_000);
    }
  }

  lemma VerdictIsMeant(env: Environment, service: string, params: Params)
    requires StartBuilder(env, service, params).Ok?
    requires Acceptable(env, StartBuilder(env, service, params).value.protocol, params, params.Keys)
    ensures KeyAddr in params
    ensures Means(env, service, params, Configured(env, StartBuilder(env, service, params).value, params, params.Keys))
  {
    StartIsMeant(env, service, params);
    var b := StartBuilder(env, service, params).value;
    var p, host, port := b.protocol, b.host.value, b.port.value;
    TextsAreMeant(env, params, p, host, port);
    NumbersAreMeant(env, params, p, host, port);
    TlsIsMeant(env, params, p, host, port);
  }

  /**
    `from_conf` on a parsed string. The hash map yields its keys in an arbitrary
    order; the contract does not depend on it.
   */
  method FromConf(env: Environment, service: string, params: Params) returns (r: Built)
    ensures StartBuilder(env, service, params).Err? ==> r == Err(ConfigError)
    ensures StartBuilder(env, service, params).Ok? ==>
              r == Verdict(env, StartBuilder(env, service, params).value, params, params.Keys)
    ensures r.Ok? <==> IsProper(env, service, params)
    ensures r.Ok? ==> Means(env, service, params, r.value)
    ensures r.Err? ==> r.error == ConfigError
  {
    AcceptableIsProper(env, service, params);
    var start :- StartBuilder(env, service, params);
    assert Untouched(start);
    var builder := start;
    var todo := params.Keys;
    NoKeys(env, start, params);
    while todo != {}
      invariant todo <= params.Keys
      invariant Verdict(env, start, params, params.Keys - todo) == Ok(builder)
      decreases todo
    {
      var key :| key in todo;
      ghost var done := params.Keys - todo;
      VerdictMore(env, start, params, done, key);
      todo := todo - {key};
      assert params.Keys - todo == done + {key};
      match ApplyParam(env, builder, key, params[key])
      case Err(e) =>
        assert !Acceptable(env, start.protocol, params, done + {key});
        return Err(e);
      case Ok(next) =>
        builder := next;
    }
    assert params.Keys - todo == params.Keys;
    VerdictIsMeant(env, service, params);
    return Ok(builder);
  }

  /** What the TLS keys in an order leave in the field they share, if the loop succeeds. */
  lemma {:induction false} TlsKeysLeaveTheirAuthority(
    env: Environment, b: SenderBuilder, params: Params, order: seq<Key>)
    requires forall i :: 0 <= i < |order| ==> order[i] in params
    requires ApplyAll(env, b, params, order).Ok?
    ensures
      var ca := ApplyAll(env, b, params, order).value.tlsCa;
      && (KeyTlsRoots in order ==> ca == Specified(PemFile))
      && (KeyTlsCa in order ==> ca.Specified? && ca.value != PemFile)
  {
    if order != [] {
      var init, last := order[..|order| - 1], order[|order| - 1];
      assert order == init + [last];
      TlsKeysLeaveTheirAuthority(env, b, params, init);
      AuthorityIsKept(env, ApplyAll(env, b, params, init).value, last, params[last]);
    }
  }

  lemma AuthorityIsKept(env: Environment, b: SenderBuilder, key: Key, val: string)
    requires ApplyParam(env, b, key, val).Ok?
    ensures
      var ca := ApplyParam(env, b, key, val).value.tlsCa;
      && Kept(b.tlsCa, ca)
      && (key == KeyTlsRoots ==> ca == Specified(PemFile))
      && (key == KeyTlsCa ==> ca.Specified? && ca.value != PemFile)
  {
  }

  /**
    `tls_ca` and `tls_roots` write one field and no `tls_ca` value means
    `PemFile`: the loop fails on any order that has both keys, on any builder.
   */
  lemma TlsKeysExclude(env: Environment, b: SenderBuilder, params: Params, order: seq<Key>)
    requires forall i :: 0 <= i < |order| ==> order[i] in params
    requires KeyTlsCa in order && KeyTlsRoots in order
    ensures ApplyAll(env, b, params, order).Err?
  {
    if ApplyAll(env, b, params, order).Ok? {
      TlsKeysLeaveTheirAuthority(env, b, params, order);
    }
  }

  // ----- The builder's own interface -----

  datatype Call =
    | CallBindInterface(addr: string)
    | CallUsername(s: string) | CallPassword(s: string)
    | CallToken(s: string) | CallTokenX(s: string) | CallTokenY(s: string)
    | CallAuthTimeout(ms: nat) | CallMaxBufSize(size: nat)
    | CallTlsVerify(verify: bool) | CallTlsCa(ca: CertificateAuthority) | CallTlsRoots(path: string)
    | CallRetryTimeout(ms: nat) | CallRequestMinThroughput(rate: nat) | CallRequestTimeout(ms: nat)

  function ApplyCall(env: Environment, b: SenderBuilder, call: Call): Built {
    match call
    case CallBindInterface(addr) => BindInterface(b, addr)
    case CallUsername(s) => Username(b, s)
    case CallPassword(s) => Password(b, s)
    case CallToken(s) => Token(b, s)
    case CallTokenX(s) => TokenX(b, s)
    case CallTokenY(s) => TokenY(b, s)
    case CallAuthTimeout(ms) => AuthTimeout(b, ms)
    case CallMaxBufSize(size) => MaxBufSize(b, size)
    case CallTlsVerify(verify) => TlsVerify(b, verify)
    case CallTlsCa(ca) => TlsCa(b, ca)
    case CallTlsRoots(path) => TlsRoots(env, b, path)
    case CallRetryTimeout(ms) => RetryTimeout(b, ms)
    case CallRequestMinThroughput(rate) => RequestMinThroughput(b, rate)
    case CallRequestTimeout(ms) => RequestTimeout(b, ms)
  }

  /** A setting that may be given this value: it was not given yet, or was given the same. */
  predicate Free<T(==)>(setting: Setting<T>, value: T) { setting.Specified? ==> setting.value == value }

  /** When a setter is accepted. */
  predicate Suits(env: Environment, b: SenderBuilder, call: Call) {
    match call
    case CallBindInterface(addr) => b.protocol in {Tcp, Tcps} && IsPrintable(addr) && Free(b.netInterface, Some(addr))
    case CallUsername(s) => IsPrintable(s) && Free(b.username, Some(s))
    case CallPassword(s) => IsPrintable(s) && Free(b.password, Some(s))
    case CallToken(s) => IsPrintable(s) && Free(b.token, Some(s))
    case CallTokenX(s) => IsPrintable(s) && Free(b.tokenX, Some(s))
    case CallTokenY(s) => IsPrintable(s) && Free(b.tokenY, Some(s))
    case CallAuthTimeout(ms) => Free(b.authTimeout, ms)
    case CallMaxBufSize(size) => size >= 1024 && Free(b.maxBufSize, size)
    case CallTlsVerify(verify) => b.protocol in {Tcps, Https} && Free(b.tlsVerify, verify)
    case CallTlsCa(ca) => b.protocol in {Tcps, Https} && Free(b.tlsCa, ca)
    case CallTlsRoots(path) =>
      && b.protocol in {Tcps, Https} && path in env.readable
      && Free(b.tlsCa, PemFile) && Free(b.tlsRoots, Some(path))
    case CallRetryTimeout(ms) => b.http.Some? && Free(b.http.value.retryTimeout, ms)
    case CallRequestMinThroughput(rate) => b.http.Some? && Free(b.http.value.requestMinThroughput, rate)
    case CallRequestTimeout(ms) => b.http.Some? && ms > 0 && Free(b.http.value.requestTimeout, ms)
  }

  /** The builder with the setter's own field given its value, and nothing else changed. */
  function SetTo(b: SenderBuilder, call: Call): SenderBuilder
    requires IsHttpCall(call) ==> b.http.Some?
  {
    match call
    case CallBindInterface(addr) => b.(netInterface := Specified(Some(addr)))
    case CallUsername(s) => b.(username := Specified(Some(s)))
    case CallPassword(s) => b.(password := Specified(Some(s)))
    case CallToken(s) => b.(token := Specified(Some(s)))
    case CallTokenX(s) => b.(tokenX := Specified(Some(s)))
    case CallTokenY(s) => b.(tokenY := Specified(Some(s)))
    case CallAuthTimeout(ms) => b.(authTimeout := Specified(ms))
    case CallMaxBufSize(size) => b.(maxBufSize := Specified(size))
    case CallTlsVerify(verify) => b.(tlsVerify := Specified(verify))
    case CallTlsCa(ca) => b.(tlsCa := Specified(ca))
    case CallTlsRoots(path) => b.(tlsCa := Specified(PemFile), tlsRoots := Specified(Some(path)))
    case CallRetryTimeout(ms) => b.(http := Some(b.http.value.(retryTimeout := Specified(ms))))
    case CallRequestMinThroughput(rate) => b.(http := Some(b.http.value.(requestMinThroughput := Specified(rate))))
    case CallRequestTimeout(ms) => b.(http := Some(b.http.value.(requestTimeout := Specified(ms))))
  }

  /** The text a setter is given, if it takes one. */
  function TextOf(call: Call): string {
    match call
    case CallBindInterface(s) => s
    case CallUsername(s) => s
    case CallPassword(s) => s
    case CallToken(s) => s
    case CallTokenX(s) => s
    case CallTokenY(s) => s
    case _ => ""
  }

  /** A setter gives its own field its value, or fails; a value may be given again, but not another one. */
  lemma CallSetsItsField(env: Environment, b: SenderBuilder, call: Call)
    ensures Suits(env, b, call) ==> ApplyCall(env, b, call) == Ok(SetTo(b, call))
    ensures !Suits(env, b, call) ==> ApplyCall(env, b, call) == Err(ConfigError)
  {
    PrintableIsValid(TextOf(call));
  }

  /** The same setter once more changes nothing. */
  lemma CallAgain(env: Environment, b: SenderBuilder, call: Call)
    requires ApplyCall(env, b, call).Ok?
    ensures ApplyCall(env, ApplyCall(env, b, call).value, call) == ApplyCall(env, b, call)
  {
    CallSetsItsField(env, b, call);
    CallSetsItsField(env, SetTo(b, call), call);
  }

  /** Naming `PemFile` first is no obstacle to giving the file with the roots. */
  lemma RootsAfterPemFile(env: Environment, b: SenderBuilder, path: string)
    requires ApplyCall(env, b, CallTlsRoots(path)).Ok?
    ensures Chain(env, b, [CallTlsCa(PemFile), CallTlsRoots(path)]) == ApplyCall(env, b, CallTlsRoots(path))
  {
    var roots := CallTlsRoots(path);
    CallSetsItsField(env, b, roots);
    CallSetsItsField(env, b, CallTlsCa(PemFile));
    CallSetsItsField(env, SetTo(b, CallTlsCa(PemFile)), roots);
    assert [CallTlsCa(PemFile), roots][1..] == [roots] && [roots][1..] == [];
    assert Chain(env, SetTo(b, CallTlsCa(PemFile)), [roots]) == ApplyCall(env, b, roots);
  }

  /** A chain of setters; the first error ends it. */
  function Chain(env: Environment, b: SenderBuilder, calls: seq<Call>): Built
    decreases |calls|
  {
    if calls == [] then Ok(b)
    else
      var b' :- ApplyCall(env, b, calls[0]);
      Chain(env, b', calls[1..])
  }

  predicate AllKept(before: SenderBuilder, after: SenderBuilder) {
    && after.protocol == before.protocol
    && Kept(before.host, after.host) && Kept(before.port, after.port)
    && Kept(before.netInterface, after.netInterface)
    && Kept(before.maxBufSize, after.maxBufSize) && Kept(before.authTimeout, after.authTimeout)
    && Kept(before.username, after.username) && Kept(before.password, after.password)
    && Kept(before.token, after.token) && Kept(before.tokenX, after.tokenX) && Kept(before.tokenY, after.tokenY)
    && Kept(before.tlsVerify, after.tlsVerify) && Kept(before.tlsCa, after.tlsCa)
    && Kept(before.tlsRoots, after.tlsRoots)
    && (before.http.Some? <==> after.http.Some?)
    && (before.http.Some? ==>
          && Kept(before.http.value.requestMinThroughput, after.http.value.requestMinThroughput)
          && Kept(before.http.value.retryTimeout, after.http.value.retryTimeout)
          && Kept(before.http.value.requestTimeout, after.http.value.requestTimeout))
  }

  predicate IsHttpCall(call: Call) {
    call.CallRetryTimeout? || call.CallRequestMinThroughput? || call.CallRequestTimeout?
  }

  lemma HttpCallKeeps(env: Environment, b: SenderBuilder, call: Call)
    requires ApplyCall(env, b, call).Ok? && IsHttpCall(call)
    ensures AllKept(b, ApplyCall(env, b, call).value)
  {
  }

  lemma OtherCallKeeps(env: Environment, b: SenderBuilder, call: Call)
    requires ApplyCall(env, b, call).Ok? && !IsHttpCall(call)
    ensures AllKept(b, ApplyCall(env, b, call).value)
  {
  }

  lemma CallKeeps(env: Environment, b: SenderBuilder, call: Call)
    requires ApplyCall(env, b, call).Ok?
    ensures AllKept(b, ApplyCall(env, b, call).value)
  {
    if IsHttpCall(call) {
      HttpCallKeeps(env, b, call);
    } else {
      OtherCallKeeps(env, b, call);
    }
  }

  lemma KeptTwice(a: SenderBuilder, b: SenderBuilder, c: SenderBuilder)
    requires AllKept(a, b) && AllKept(b, c)
    ensures AllKept(a, c)
  {
  }

  /** Over any chain of setters, what was specified is never changed. */
  lemma {:induction false} SpecifiedIsForever(env: Environment, b: SenderBuilder, calls: seq<Call>)
    requires Chain(env, b, calls).Ok?
    ensures AllKept(b, Chain(env, b, calls).value)
    decreases |calls|
  {
    if calls != [] {
      var next := ApplyCall(env, b, calls[0]).value;
      CallKeeps(env, b, calls[0]);
      SpecifiedIsForever(env, next, calls[1..]);
      KeptTwice(b, next, Chain(env, b, calls).value);
    }
  }
}
