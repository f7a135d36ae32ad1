/** Configuration of the accessory (the constructor, index.js:61-297) and the
    predicates that read the resolved API profile (index.js:685-703).

    Configuration values arrive already typed: a key that is missing,
    `null` or `undefined` is `None` (`getConfigValue` then falls back to the
    default). JavaScript truthiness of a string is "present and non-empty". */
module Config {
  import opened Wrappers

  datatype RawApiConfig = RawApiConfig(
    apiType: Option<string>,
    doorStateUrl: Option<string>,
    doorStateMethod: Option<string>,
    doorStateField: Option<string>,
    doorOperationSeconds: Option<int>,
    doorOpenMethod: Option<string>,
    doorOpenUrl: Option<string>,
    doorCloseMethod: Option<string>,
    doorCloseUrl: Option<string>,
    doorSuccessField: Option<string>,
    lightStateUrl: Option<string>,
    lightStateMethod: Option<string>,
    lightStateField: Option<string>,
    lightOnMethod: Option<string>,
    lightOnUrl: Option<string>,
    lightOffMethod: Option<string>,
    lightOffUrl: Option<string>,
    lightSuccessField: Option<string>,
    doorOpenSuccessContent: Option<string>,
    doorCloseSuccessContent: Option<string>,
    lightOnSuccessContent: Option<string>,
    lightOffSuccessContent: Option<string>)

  /** An API block with no keys, read where the block is missing. */
  const NoApiConfig := RawApiConfig(None, None, None, None, None, None, None, None, None, None, None,
                                    None, None, None, None, None, None, None, None, None, None, None)

  datatype RawConfig = RawConfig(
    name: Option<string>,
    lightName: Option<string>,
    httpSsl: Option<bool>,
    httpHost: Option<string>,
    httpPort: Option<int>,
    httpStatusPollMilliseconds: Option<int>,
    httpRequestTimeoutMilliseconds: Option<int>,
    httpHeaderName: Option<string>,
    httpHeaderValue: Option<string>,
    oauthAuthentication: Option<bool>,
    oauthSignatureMethod: Option<string>,
    oauthConsumerKey: Option<string>,
    oauthConsumerSecret: Option<string>,
    oauthToken: Option<string>,
    oauthTokenSecret: Option<string>,
    apiConfig: Option<RawApiConfig>)

  /** A configuration field named in a startup error message. */
  datatype ConfigField =
    | Name | HttpHost | HttpPort | HttpStatusPollMilliseconds | HttpRequestTimeoutMilliseconds
    | HttpHeaderValue
    | OauthSignatureMethod | OauthConsumerKey | OauthConsumerSecret | OauthTokenSecret
    | ApiConfig | ApiTypeField
    | DoorStateMethod | DoorOperationSeconds | DoorOpenMethod | DoorOpenUrl
    | DoorCloseMethod | DoorCloseUrl
    | LightStateMethod | LightOnMethod | LightOnUrl | LightOffMethod | LightOffUrl
    | DoorStateField | LightStateField

  datatype ApiType = HttpGarageDoorController | JsonApi | GenericApi

  datatype HttpMethod = GET | POST | PUT

  datatype SignatureMethod = HmacSha1 | HmacSha256 | Plaintext

  /** A configured string is truthy: present and non-empty. */
  predicate Truthy(o: Option<string>) {
    o.Some? && o.value != ""
  }

  /** A configured HTTP method, checked against the whitelist. */
  function ParseMethod(o: Option<string>): Option<HttpMethod> {
    if o == Some("GET") then Some(GET)
    else if o == Some("POST") then Some(POST)
    else if o == Some("PUT") then Some(PUT)
    else None
  }

  function MethodName(m: HttpMethod): string {
    match m
    case GET => "GET"
    case POST => "POST"
    case PUT => "PUT"
  }

  lemma MethodNameRoundTrip(m: HttpMethod)
    ensures ParseMethod(Some(MethodName(m))) == Some(m)
  {
  }

  /** The method whitelist: a method is accepted exactly when it is one of
      the words "GET", "POST" and "PUT", spelled in upper case; it then names
      that method. */
  lemma MethodWhitelistIsExact(o: Option<string>)
    ensures ParseMethod(o).Some? <==> o == Some("GET") || o == Some("POST") || o == Some("PUT")
    ensures ParseMethod(o).Some? ==> o == Some(MethodName(ParseMethod(o).value))
  {
  }

  function ParseSignatureMethod(s: string): Option<SignatureMethod> {
    if s == "HMAC-SHA1" then Some(HmacSha1)
    else if s == "HMAC-SHA256" then Some(HmacSha256)
    else if s == "PLAINTEXT" then Some(Plaintext)
    else None
  }

  function SignatureMethodName(m: SignatureMethod): string {
    match m
    case HmacSha1 => "HMAC-SHA1"
    case HmacSha256 => "HMAC-SHA256"
    case Plaintext => "PLAINTEXT"
  }

  function ParseApiType(o: Option<string>): Option<ApiType> {
    if o == Some("HttpGarageDoorController") then Some(HttpGarageDoorController)
    else if o == Some("Json") then Some(JsonApi)
    else if o == Some("Generic") then Some(GenericApi)
    else None
  }

  /** The API profile the configuration selects, if any. */
  function Profile(c: RawConfig): Option<ApiType> {
    if c.apiConfig.None? then None else ParseApiType(c.apiConfig.value.apiType)
  }

  /** The profile has configurable endpoints ("Json" or "Generic"). */
  predicate Configurable(c: RawConfig) {
    Profile(c) == Some(JsonApi) || Profile(c) == Some(GenericApi)
  }

  /* Typed readings with the constructor's defaults. */
  function Port(c: RawConfig): int { c.httpPort.GetOr(80) }
  function PollMilliseconds(c: RawConfig): int { c.httpStatusPollMilliseconds.GetOr(4000) }
  function TimeoutMilliseconds(c: RawConfig): int { c.httpRequestTimeoutMilliseconds.GetOr(10000) }
  function OAuthEnabled(c: RawConfig): bool { c.oauthAuthentication.GetOr(false) }
  function SignatureMethodSetting(c: RawConfig): string { c.oauthSignatureMethod.GetOr("HMAC-SHA1") }

  /* ------------------------------------------------------------ validation */

  /** The rule the constructor checks for each field it can report
      (index.js:69-289): the field is reported exactly when `Broken` holds.
      OAuth rules apply only when OAuth is enabled, the endpoint rules only
      to the configurable profiles, the light rules only when a light name
      is configured, and the JSON field rules only to the "Json" profile. */
  predicate Broken(c: RawConfig, f: ConfigField) {
    var a := c.apiConfig.GetOr(NoApiConfig);
    var light := Truthy(c.lightName);
    match f
    case Name => !Truthy(c.name)
    case HttpHost => !Truthy(c.httpHost)
    case HttpPort => Port(c) <= 0
    case HttpStatusPollMilliseconds => PollMilliseconds(c) == 0
    case HttpRequestTimeoutMilliseconds => TimeoutMilliseconds(c) == 0
    case HttpHeaderValue => Truthy(c.httpHeaderName) && !Truthy(c.httpHeaderValue)
    case OauthSignatureMethod =>
      OAuthEnabled(c) && ParseSignatureMethod(SignatureMethodSetting(c)).None?
    case OauthConsumerKey => OAuthEnabled(c) && !Truthy(c.oauthConsumerKey)
    case OauthConsumerSecret => OAuthEnabled(c) && !Truthy(c.oauthConsumerSecret)
    case OauthTokenSecret => OAuthEnabled(c) && Truthy(c.oauthToken) && !Truthy(c.oauthTokenSecret)
    case ApiConfig => c.apiConfig.None?
    case ApiTypeField => c.apiConfig.Some? && Profile(c).None?
    case DoorStateMethod =>
      Configurable(c) && Truthy(a.doorStateUrl) && ParseMethod(a.doorStateMethod).None?
    case DoorOperationSeconds =>
      Configurable(c) && !Truthy(a.doorStateUrl) && a.doorOperationSeconds.GetOr(0) <= 0
    case DoorOpenMethod => Configurable(c) && ParseMethod(a.doorOpenMethod).None?
    case DoorOpenUrl => Configurable(c) && !Truthy(a.doorOpenUrl)
    case DoorCloseMethod => Configurable(c) && ParseMethod(a.doorCloseMethod).None?
    case DoorCloseUrl => Configurable(c) && !Truthy(a.doorCloseUrl)
    case LightStateMethod =>
      Configurable(c) && light && Truthy(a.lightStateUrl) && ParseMethod(a.lightStateMethod).None?
    case LightOnMethod => Configurable(c) && light && ParseMethod(a.lightOnMethod).None?
    case LightOnUrl => Configurable(c) && light && !Truthy(a.lightOnUrl)
    case LightOffMethod => Configurable(c) && light && ParseMethod(a.lightOffMethod).None?
    case LightOffUrl => Configurable(c) && light && !Truthy(a.lightOffUrl)
    case DoorStateField => Profile(c) == Some(JsonApi) && Truthy(a.doorStateUrl) && !Truthy(a.doorStateField)
    case LightStateField =>
      Profile(c) == Some(JsonApi) && light && Truthy(a.lightStateUrl) && !Truthy(a.lightStateField)
  }

  /** Every field, in the order the constructor checks them. */
  const AllFields: seq<ConfigField> := [
    Name, HttpHost, HttpPort, HttpStatusPollMilliseconds, HttpRequestTimeoutMilliseconds,
    HttpHeaderValue, OauthSignatureMethod, OauthConsumerKey, OauthConsumerSecret, OauthTokenSecret,
    ApiConfig, ApiTypeField, DoorStateMethod, DoorOperationSeconds, DoorOpenMethod, DoorOpenUrl,
    DoorCloseMethod, DoorCloseUrl, LightStateMethod, LightOnMethod, LightOnUrl, LightOffMethod,
    LightOffUrl, DoorStateField, LightStateField]

  lemma AllFieldsComplete(f: ConfigField)
    ensures f in AllFields
  {
  }

  /** The fields the constructor reports as missing or invalid. */
  function Issues(c: RawConfig): (r: seq<ConfigField>)
    ensures forall f :: f in r <==> Broken(c, f)
  {
    var r := Filter(c, AllFields);
    assert forall f :: f in r <==> Broken(c, f) by {
      forall f ensures f in r <==> Broken(c, f) { AllFieldsComplete(f); }
    }
    r
  }

  function Filter(c: RawConfig, fs: seq<ConfigField>): (r: seq<ConfigField>)
    ensures forall f :: f in r <==> f in fs && Broken(c, f)
  {
    if |fs| == 0 then []
    else (if Broken(c, fs[0]) then [fs[0]] else []) + Filter(c, fs[1..])
  }

  /** `configurationValid` stays true: no error was logged and the services
      are initialised. */
  predicate Valid(c: RawConfig) {
    Issues(c) == []
  }

  /** A configuration is valid exactly when no rule is broken. */
  lemma ValidMeansNoRuleBroken(c: RawConfig)
    ensures Valid(c) <==> forall f :: !Broken(c, f)
  {
    if !Valid(c) {
      assert Issues(c)[0] in Issues(c);
    }
  }

  lemma NotBroken(c: RawConfig, f: ConfigField)
    requires Valid(c)
    ensures !Broken(c, f)
  {
    ValidMeansNoRuleBroken(c);
  }

  /** What a valid configuration guarantees about the HTTP and OAuth
      blocks. */
  lemma ValidConnection(c: RawConfig)
    requires Valid(c)
    ensures Truthy(c.name) && Truthy(c.httpHost)
    ensures Port(c) > 0 && PollMilliseconds(c) != 0 && TimeoutMilliseconds(c) != 0
    ensures Truthy(c.httpHeaderName) ==> Truthy(c.httpHeaderValue)
    ensures OAuthEnabled(c) ==>
              && ParseSignatureMethod(SignatureMethodSetting(c)).Some?
              && Truthy(c.oauthConsumerKey) && Truthy(c.oauthConsumerSecret)
              && (Truthy(c.oauthToken) ==> Truthy(c.oauthTokenSecret))
  {
    ValidMeansNoRuleBroken(c);
    assert !Broken(c, Name) && !Broken(c, HttpHost) && !Broken(c, HttpPort);
    assert !Broken(c, HttpStatusPollMilliseconds) && !Broken(c, HttpRequestTimeoutMilliseconds);
    assert !Broken(c, HttpHeaderValue);
    assert !Broken(c, OauthSignatureMethod) && !Broken(c, OauthConsumerKey);
    assert !Broken(c, OauthConsumerSecret) && !Broken(c, OauthTokenSecret);
  }

  /** A valid configuration has an API block naming a known profile. */
  lemma ValidProfile(c: RawConfig)
    requires Valid(c)
    ensures c.apiConfig.Some? && Profile(c).Some?
  {
    ValidMeansNoRuleBroken(c);
    assert !Broken(c, ApiConfig) && !Broken(c, ApiTypeField);
  }

  /** What a valid configuration guarantees about the door endpoints of a
      configurable profile: whitelisted methods and non-empty URLs, and
      either a state method or a positive operation time. */
  lemma ValidDoorEndpoints(c: RawConfig)
    requires Valid(c) && Configurable(c)
    ensures var a := c.apiConfig.value;
            && ParseMethod(a.doorOpenMethod).Some? && Truthy(a.doorOpenUrl)
            && ParseMethod(a.doorCloseMethod).Some? && Truthy(a.doorCloseUrl)
            && (Truthy(a.doorStateUrl) ==> ParseMethod(a.doorStateMethod).Some?)
            && (!Truthy(a.doorStateUrl) ==> a.doorOperationSeconds.GetOr(0) > 0)
  {
    NotBroken(c, DoorStateMethod);
    NotBroken(c, DoorOperationSeconds);
    NotBroken(c, DoorOpenMethod);
    NotBroken(c, DoorOpenUrl);
    NotBroken(c, DoorCloseMethod);
    NotBroken(c, DoorCloseUrl);
    DoorRulesKept(c);
  }

  lemma DoorRulesKept(c: RawConfig)
    requires Configurable(c)
    requires !Broken(c, DoorStateMethod) && !Broken(c, DoorOperationSeconds)
    requires !Broken(c, DoorOpenMethod) && !Broken(c, DoorOpenUrl)
    requires !Broken(c, DoorCloseMethod) && !Broken(c, DoorCloseUrl)
    ensures var a := c.apiConfig.value;
            && ParseMethod(a.doorOpenMethod).Some? && Truthy(a.doorOpenUrl)
            && ParseMethod(a.doorCloseMethod).Some? && Truthy(a.doorCloseUrl)
            && (Truthy(a.doorStateUrl) ==> ParseMethod(a.doorStateMethod).Some?)
            && (!Truthy(a.doorStateUrl) ==> a.doorOperationSeconds.GetOr(0) > 0)
  {
    assert c.apiConfig.Some?;
  }

  /** What a valid configuration with a light name guarantees about the
      light endpoints of a configurable profile. */
  lemma ValidLightEndpoints(c: RawConfig)
    requires Valid(c) && Configurable(c) && Truthy(c.lightName)
    ensures var a := c.apiConfig.value;
            && ParseMethod(a.lightOnMethod).Some? && Truthy(a.lightOnUrl)
            && ParseMethod(a.lightOffMethod).Some? && Truthy(a.lightOffUrl)
            && (Truthy(a.lightStateUrl) ==> ParseMethod(a.lightStateMethod).Some?)
  {
    NotBroken(c, LightStateMethod);
    NotBroken(c, LightOnMethod);
    NotBroken(c, LightOnUrl);
    NotBroken(c, LightOffMethod);
    NotBroken(c, LightOffUrl);
    LightRulesKept(c);
  }

  lemma LightRulesKept(c: RawConfig)
    requires Configurable(c) && Truthy(c.lightName)
    requires !Broken(c, LightStateMethod) && !Broken(c, LightOnMethod) && !Broken(c, LightOnUrl)
    requires !Broken(c, LightOffMethod) && !Broken(c, LightOffUrl)
    ensures var a := c.apiConfig.value;
            && ParseMethod(a.lightOnMethod).Some? && Truthy(a.lightOnUrl)
            && ParseMethod(a.lightOffMethod).Some? && Truthy(a.lightOffUrl)
            && (Truthy(a.lightStateUrl) ==> ParseMethod(a.lightStateMethod).Some?)
  {
    assert c.apiConfig.Some?;
  }

  /** A valid "Json" profile names the field of every state it polls. */
  lemma ValidJsonFields(c: RawConfig)
    requires Valid(c) && Profile(c) == Some(JsonApi)
    ensures var a := c.apiConfig.value;
            && (Truthy(a.doorStateUrl) ==> Truthy(a.doorStateField))
            && (Truthy(c.lightName) && Truthy(a.lightStateUrl) ==> Truthy(a.lightStateField))
  {
    ValidMeansNoRuleBroken(c);
    assert !Broken(c, DoorStateField);
    assert !Broken(c, LightStateField);
  }

  /* ------------------------------------------------------ resolved profile */

  datatype Endpoint = Endpoint(verb: HttpMethod, url: string)

  /** `this.apiConfig` after the constructor: `None` stands for a key it
      never assigned (JavaScript `undefined`). */
  datatype ApiSettings = ApiSettings(
    apiType: ApiType,
    doorStateUrl: Option<string>,
    doorStateMethod: Option<HttpMethod>,
    doorStateField: Option<string>,
    doorOpen: Endpoint,
    doorClose: Endpoint,
    doorSuccessField: Option<string>,
    lightStateUrl: Option<string>,
    lightStateMethod: Option<HttpMethod>,
    lightStateField: Option<string>,
    lightOn: Option<Endpoint>,
    lightOff: Option<Endpoint>,
    lightSuccessField: Option<string>)

  datatype OAuthSettings = OAuthSettings(
    signatureMethod: SignatureMethod,
    consumerKey: string,
    consumerSecret: string,
    token: Option<string>,
    tokenSecret: Option<string>)

  /** The "Generic" success contents, which the constructor stores on the
      accessory itself rather than on `apiConfig`. */
  datatype SuccessContents = SuccessContents(
    doorOpen: Option<string>,
    doorClose: Option<string>,
    lightOn: Option<string>,
    lightOff: Option<string>)

  datatype Settings = Settings(
    name: string,
    lightName: Option<string>,
    ssl: bool,
    host: string,
    port: int,
    pollMilliseconds: int,
    timeoutMilliseconds: int,
    header: Option<(string, string)>,
    oauth: Option<OAuthSettings>,
    api: ApiSettings,
    doorOperationSeconds: int,
    successContents: SuccessContents)

  /** The fixed endpoints of the "HttpGarageDoorController" profile
      (index.js:155-176). */
  const VendorApi := ApiSettings(
    HttpGarageDoorController,
    Some("/controller"), Some(GET), Some("door-state"),
    Endpoint(PUT, "/controller/door/open"), Endpoint(PUT, "/controller/door/close"),
    Some("success"),
    Some("/controller"), Some(GET), Some("light-state"),
    Some(Endpoint(PUT, "/controller/light/on")), Some(Endpoint(PUT, "/controller/light/off")),
    Some("success"))

  /** The endpoints of a "Json" or "Generic" profile, read as the
      constructor reads them: the state method only when the state URL is
      truthy, the light keys only when a light name is configured, and the
      JSON field names only for "Json". */
  function ConfiguredApi(c: RawConfig): ApiSettings
    requires Valid(c) && Configurable(c)
  {
    ValidDoorEndpoints(c);
    var a := c.apiConfig.value;
    var t := Profile(c).value;
    var light := Truthy(c.lightName);
    var json := t == JsonApi;
    ApiSettings(
      t,
      a.doorStateUrl,
      if Truthy(a.doorStateUrl) then ParseMethod(a.doorStateMethod) else None,
      if json && Truthy(a.doorStateUrl) then a.doorStateField else None,
      Endpoint(ParseMethod(a.doorOpenMethod).value, a.doorOpenUrl.value),
      Endpoint(ParseMethod(a.doorCloseMethod).value, a.doorCloseUrl.value),
      if json then a.doorSuccessField else None,
      if light then a.lightStateUrl else None,
      if light && Truthy(a.lightStateUrl) then ParseMethod(a.lightStateMethod) else None,
      if json && light && Truthy(a.lightStateUrl) then a.lightStateField else None,
      if light then ValidLightEndpoints(c); Some(Endpoint(ParseMethod(a.lightOnMethod).value, a.lightOnUrl.value))
      else None,
      if light then ValidLightEndpoints(c); Some(Endpoint(ParseMethod(a.lightOffMethod).value, a.lightOffUrl.value))
      else None,
      if json && light then a.lightSuccessField else None)
  }

  /** The accessory's settings once the constructor accepts the
      configuration. The vendor profile forces plain HTTP and HMAC-SHA256
      and ignores every endpoint key; the other profiles take theirs from
      the configuration. OAuth and the static header are present exactly
      when enabled. */
  function Resolve(c: RawConfig): (s: Settings)
    requires Valid(c)
    ensures Profile(c) == Some(HttpGarageDoorController) ==>
              s.api == VendorApi && !s.ssl
              && (s.oauth.Some? ==> s.oauth.value.signatureMethod == HmacSha256)
    ensures Configurable(c) ==> s.ssl == c.httpSsl.GetOr(false) && s.api.apiType == Profile(c).value
    ensures s.oauth.Some? <==> OAuthEnabled(c)
    ensures s.header.Some? <==> Truthy(c.httpHeaderName)
    ensures s.port > 0 && s.pollMilliseconds != 0 && s.timeoutMilliseconds != 0
  {
    ValidConnection(c);
    ValidProfile(c);
    var vendor := Profile(c) == Some(HttpGarageDoorController);
    var a := c.apiConfig.value;
    var oauth :=
      if !OAuthEnabled(c) then None
      else Some(OAuthSettings(
        if vendor then HmacSha256 else ParseSignatureMethod(SignatureMethodSetting(c)).value,
        c.oauthConsumerKey.value,
        c.oauthConsumerSecret.value,
        c.oauthToken,
        if Truthy(c.oauthToken) then c.oauthTokenSecret else None));
    var generic := Profile(c) == Some(GenericApi);
    var light := Truthy(c.lightName);
    Settings(
      c.name.value,
      c.lightName,
      if vendor then false else c.httpSsl.GetOr(false),
      c.httpHost.value,
      Port(c),
      PollMilliseconds(c),
      TimeoutMilliseconds(c),
      if Truthy(c.httpHeaderName) then Some((c.httpHeaderName.value, c.httpHeaderValue.value)) else None,
      oauth,
      if vendor then VendorApi else ConfiguredApi(c),
      if Configurable(c) && !Truthy(a.doorStateUrl) then a.doorOperationSeconds.GetOr(0) else 0,
      if generic then SuccessContents(
                        a.doorOpenSuccessContent, a.doorCloseSuccessContent,
                        if light then a.lightOnSuccessContent else None,
                        if light then a.lightOffSuccessContent else None)
      else SuccessContents(None, None, None, None))
  }

  /* ------------------------------------------------- profile predicates */

  /** `_isJsonApi`. */
  predicate IsJsonApi(s: Settings) {
    s.api.apiType == HttpGarageDoorController || s.api.apiType == JsonApi
  }

  /** `_hasDoorState`: a door-state URL was assigned (even an empty one). */
  predicate HasDoorState(s: Settings) {
    s.api.doorStateUrl.Some?
  }

  /** `_hasLightState`. */
  predicate HasLightState(s: Settings) {
    s.api.lightStateUrl.Some?
  }

  /** `_hasStates`: something can be polled. */
  predicate HasStates(s: Settings) {
    HasDoorState(s) || HasLightState(s)
  }

  /** `_hasDualState`: one JSON endpoint answers for both door and light. */
  predicate HasDualState(s: Settings) {
    HasDoorState(s) && HasLightState(s) && IsJsonApi(s) && s.api.doorStateUrl == s.api.lightStateUrl
  }

  /** A light accessory is published (`lightName` is truthy). */
  predicate HasLightService(s: Settings) {
    Truthy(s.lightName)
  }

  /* ------------------------------------------------------------ properties */

  /** The vendor profile's endpoints do not depend on any endpoint key of
      the configuration, and it always polls one dual door-and-light URL. */
  lemma VendorProfileIsFixed(c1: RawConfig, c2: RawConfig)
    requires Valid(c1) && Valid(c2)
    requires Profile(c1) == Some(HttpGarageDoorController) && Profile(c2) == Some(HttpGarageDoorController)
    ensures Resolve(c1).api == Resolve(c2).api
    ensures HasDualState(Resolve(c1)) && HasStates(Resolve(c1))
  {
    ValidProfile(c1);
    ValidProfile(c2);
  }

  /** A device without a door-state URL is driven open-loop, which needs a
      positive operation time; one with a non-empty URL has a whitelisted
      method to poll it with. The one polled door without a method is the
      one configured with an empty URL. */
  lemma OpenLoopHasDuration(c: RawConfig)
    requires Valid(c)
    ensures !HasDoorState(Resolve(c)) ==> Resolve(c).doorOperationSeconds > 0
    ensures Truthy(Resolve(c).api.doorStateUrl) ==> Resolve(c).api.doorStateMethod.Some?
    ensures HasDoorState(Resolve(c)) && Resolve(c).api.doorStateMethod.None? ==>
              Resolve(c).api.doorStateUrl == Some("")
  {
    ValidProfile(c);
    if Configurable(c) {
      ValidDoorEndpoints(c);
    }
  }

  /** The "Generic" profile never polls both axes through one request. */
  lemma GenericIsNeverDual(c: RawConfig)
    requires Valid(c) && Profile(c) == Some(GenericApi)
    ensures !HasDualState(Resolve(c)) && !IsJsonApi(Resolve(c))
  {
    ValidProfile(c);
  }
}
