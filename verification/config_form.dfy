/**
  The test configuration form (packages/frontend/src/components/ConfigForm.tsx):
  the schema a submission must satisfy and what a valid submission does. The
  form library, the URL check and `JSON.parse` are not modelled: whether the
  URL is valid and what parsing the headers text gave are parameters, and the
  numeric fields hold the numbers the schema coerced them to.
 */
module ConfigForm {
  import opened Types
  import opened TestStore

  /** The form's fields as the schema sees them; `headers` and `body` are optional texts. */
  datatype FormValues = FormValues(
    name: string,
    url: string,
    httpMethod: string,
    headers: Option<string>,
    body: Option<string>,
    concurrency: real,
    totalRequests: real,
    rampUpSeconds: real,
    timeoutMs: real,
    thinkTimeMs: real
  )

  /** The values the form opens with. */
  const Defaults := FormValues("My API Test", "https://httpbin.org/get", "GET", None, None, 10.0, 100.0, 5.0, 5000.0, 0.0)

  function MethodName(m: HttpMethod): string {
    match m
    case GET => "GET"
    case POST => "POST"
    case PUT => "PUT"
    case DELETE => "DELETE"
    case PATCH => "PATCH"
  }

  /** The method enum: exactly the five names, spelled in capitals. */
  function ParseMethod(s: string): (m: Option<HttpMethod>)
    ensures m.Some? ==> MethodName(m.value) == s
  {
    if s == "GET" then Some(GET)
    else if s == "POST" then Some(POST)
    else if s == "PUT" then Some(PUT)
    else if s == "DELETE" then Some(DELETE)
    else if s == "PATCH" then Some(PATCH)
    else None
  }

  /** Every method's name parses back to it, so the names are distinct. */
  lemma MethodRoundTrip(m: HttpMethod)
    ensures ParseMethod(MethodName(m)) == Some(m)
  {
  }

  /** The schema's numeric bounds. */
  predicate InFormRanges(concurrency: real, totalRequests: real, rampUpSeconds: real, timeoutMs: real, thinkTimeMs: real) {
    && 1.0 <= concurrency <= 1000.0
    && 1.0 <= totalRequests <= 100000.0
    && 0.0 <= rampUpSeconds <= 300.0
    && 100.0 <= timeoutMs <= 60000.0
    && 0.0 <= thinkTimeMs <= 10000.0
  }

  /** The schema: a name, a valid URL, one of the five methods, and every number in its range. */
  predicate Valid(f: FormValues, urlIsValid: bool) {
    && |f.name| >= 1
    && urlIsValid
    && ParseMethod(f.httpMethod).Some?
    && InFormRanges(f.concurrency, f.totalRequests, f.rampUpSeconds, f.timeoutMs, f.thinkTimeMs)
  }

  /** The form's defaults pass the schema whenever the default URL does. */
  lemma DefaultsValid(urlIsValid: bool)
    ensures Valid(Defaults, urlIsValid) <==> urlIsValid
  {
    assert ParseMethod("GET") == Some(GET);
  }

  /**
    The headers sent: what the text parsed to, or `{}` when the field is empty
    or its text is not valid JSON (`parsed` is `None` when parsing threw).
   */
  function HeadersOf(text: Option<string>, parsed: Option<map<string, string>>): (h: map<string, string>)
    ensures (text.None? || text == Some("") || parsed.None?) ==> h == map[]
    ensures text.Some? && text.value != "" && parsed.Some? ==> h == parsed.value
  {
    if text.Some? && text.value != "" && parsed.Some? then parsed.value else map[]
  }

  /** An empty body is no body. */
  function BodyOf(body: Option<string>): (b: Option<string>)
    ensures b.Some? <==> body.Some? && body.value != ""
    ensures b.Some? ==> b == body
  {
    if body.Some? && body.value != "" then body else None
  }

  /** The configuration built from a valid form, under the fresh identifier `id`. */
  function BuildConfig(f: FormValues, id: string, parsedHeaders: Option<map<string, string>>): (c: LoadTestConfig)
    requires ParseMethod(f.httpMethod).Some?
    ensures c.id == id && c.name == f.name && c.url == f.url
    ensures MethodName(c.httpMethod) == f.httpMethod
    ensures c.headers == HeadersOf(f.headers, parsedHeaders) && c.body == BodyOf(f.body)
    ensures c.concurrency == f.concurrency && c.totalRequests == f.totalRequests
    ensures c.rampUpSeconds == f.rampUpSeconds && c.timeoutMs == f.timeoutMs && c.thinkTimeMs == f.thinkTimeMs
  {
    LoadTestConfig(id, f.name, f.url, ParseMethod(f.httpMethod).value, HeadersOf(f.headers, parsedHeaders),
      BodyOf(f.body), f.concurrency, f.totalRequests, f.rampUpSeconds, f.timeoutMs, f.thinkTimeMs)
  }

  /** What the form sends over the socket. */
  datatype Outgoing = StartTest(config: LoadTestConfig) | StopTest

  /**
    Submitting: an invalid form does nothing; a valid one stores the new
    configuration, resets the store and sends `START_TEST` with the same
    configuration. The reset keeps the configuration just stored.
   */
  function Submit(s: Store, f: FormValues, urlIsValid: bool, id: string, parsedHeaders: Option<map<string, string>>): (r: (Store, Option<Outgoing>))
    ensures !Valid(f, urlIsValid) ==> r == (s, None)
    ensures Valid(f, urlIsValid) ==>
      && r.1 == Some(StartTest(BuildConfig(f, id, parsedHeaders)))
      && r.0.currentConfig == Some(BuildConfig(f, id, parsedHeaders))
      && r.0 == Reset(s).(currentConfig := r.0.currentConfig)
  {
    if !Valid(f, urlIsValid) then (s, None)
    else
      var config := BuildConfig(f, id, parsedHeaders);
      (Reset(s.(currentConfig := Some(config))), Some(StartTest(config)))
  }

  /** Every configuration the form sends is within the schema's bounds, with a name and a method. */
  lemma SentConfigInRanges(s: Store, f: FormValues, urlIsValid: bool, id: string, parsedHeaders: Option<map<string, string>>)
    requires Submit(s, f, urlIsValid, id, parsedHeaders).1.Some?
    ensures var c := Submit(s, f, urlIsValid, id, parsedHeaders).1.value.config;
      && c.name != []
      && InFormRanges(c.concurrency, c.totalRequests, c.rampUpSeconds, c.timeoutMs, c.thinkTimeMs)
      && Submit(s, f, urlIsValid, id, parsedHeaders).0.currentConfig == Some(c)
  {
  }

  /** The reset button: `reset` and nothing else, so the stored configuration stays. */
  function ResetButton(s: Store): (r: Store)
    ensures r.currentConfig == s.currentConfig && r.status == Idle
  {
    Reset(s)
  }

  /** The stop button, shown while a run is in progress, sends `STOP_TEST` and leaves the store alone. */
  function StopButton(s: Store): (r: Option<Outgoing>)
    ensures s.status == Running <==> r == Some(StopTest)
    ensures s.status != Running ==> r.None?
  {
    if s.status == Running then Some(StopTest) else None
  }
}
