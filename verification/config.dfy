/** Environment-driven settings (codewiki_mcp/config.py).

    The process environment is a parameter: a map from variable name to
    value, where a missing name plays the part of `os.environ.get(name, "")`
    returning the empty string. */
module Config {
  import opened Wrappers
  import opened Text

  type Environment = map<string, string>

  // ----- Python's int() on a string -------------------------------------

  /** One run of decimal digits in which single underscores may separate
      digits (the `digitpart` of Python's numeric grammar). */
  predicate IsDigitPart(s: string) {
    && |s| > 0 && IsDigit(s[0]) && IsDigit(s[|s| - 1])
    && (forall i :: 0 <= i < |s| ==> IsDigit(s[i]) || s[i] == '_')
    && (forall i, j :: 0 <= i < |s| && 0 <= j < |s| && j == i + 1 ==> IsDigit(s[i]) || IsDigit(s[j]))
  }

  /** The number the digits of `s` spell, underscores skipped. */
  function DigitsValue(s: string): nat
    decreases |s|
  {
    if |s| == 0 then 0
    else if IsDigit(s[|s| - 1]) then 10 * DigitsValue(s[..|s| - 1]) + (s[|s| - 1] as int - '0' as int)
    else DigitsValue(s[..|s| - 1])
  }

  /** How many digits `s` holds, underscores skipped. */
  function DigitCount(s: string): nat
    decreases |s|
  {
    if |s| == 0 then 0
    else if IsDigit(s[|s| - 1]) then DigitCount(s[..|s| - 1]) + 1
    else DigitCount(s[..|s| - 1])
  }

  /** Python's `int(s)`: surrounding whitespace, then an optional sign, then
      a digit part; anything else raises ValueError (`None` here). */
  function ParseInt(s: string): (r: Option<int>)
    ensures r.Some? ==> Strip(s) != []
  {
    var t := Strip(s);
    if |t| > 0 && (t[0] == '+' || t[0] == '-') then
      if IsDigitPart(t[1..]) then
        var v: int := DigitsValue(t[1..]);
        Some(if t[0] == '-' then -v else v)
      else None
    else if IsDigitPart(t) then Some(DigitsValue(t))
    else None
  }

  /** `_env_int`: a set, non-blank value that `int()` accepts overrides the
      default; an unset, blank or unparseable value gives the default. */
  function EnvInt(env: Environment, name: string, default: int): (r: int)
    ensures name !in env ==> r == default
    ensures name in env && ParseInt(env[name]).Some? ==> r == ParseInt(env[name]).value
    ensures name in env && ParseInt(env[name]).None? ==> r == default
  {
    var val := if name in env then env[name] else "";
    if Strip(val) != [] then
      match ParseInt(val)
      case Some(n) => n
      case None => default
    else default
  }

  /** `_env_bool`: the trimmed, lower-cased value decides. */
  function EnvBool(env: Environment, name: string, default: bool): (r: bool)
  {
    var val := Lower(Strip(if name in env then env[name] else ""));
    if val == "1" || val == "true" || val == "yes" then true
    else if val == "0" || val == "false" || val == "no" then false
    else default
  }

  // ----- the settings and their defaults ---------------------------------

  const DEFAULT_HARD_TIMEOUT_SECONDS := 60
  const DEFAULT_PAGE_LOAD_TIMEOUT_SECONDS := 30
  const DEFAULT_ELEMENT_WAIT_TIMEOUT_SECONDS := 20
  const DEFAULT_RESPONSE_WAIT_TIMEOUT_SECONDS := 45
  const DEFAULT_HTTPX_TIMEOUT_SECONDS := 30
  const DEFAULT_MAX_RETRIES := 2
  const DEFAULT_RETRY_DELAY_SECONDS := 3
  const DEFAULT_RESPONSE_MAX_CHARS := 30000
  const DEFAULT_CACHE_TTL_SECONDS := 300
  const DEFAULT_CACHE_MAX_SIZE := 50
  const DEFAULT_RESPONSE_INITIAL_DELAY_SECONDS := 5
  const DEFAULT_RESPONSE_POLL_INTERVAL_SECONDS := 2
  const DEFAULT_RESPONSE_STABLE_INTERVAL_SECONDS := 2
  const DEFAULT_JS_LOAD_DELAY_SECONDS := 3
  const DEFAULT_BASE_URL := "https://codewiki.google"

  /** Fixed (not environment-driven) constants. */
  const NEW_CONTENT_THRESHOLD_CHARS := 50
  const FALLBACK_MIN_TEXT_LENGTH := 20

  /** Strings the chat widget and the page add to visible text. */
  const UI_ARTIFACTS: seq<string> := [
    "content_copy",
    "refresh",
    "thumb_up",
    "thumb_down",
    "arrow_menu_open",
    "Gemini can make mistakes, so double-check it."
  ]

  const CHAT_INPUT_SELECTORS: seq<string> := [
    "textarea[data-test-id='chat-input']",
    "textarea#message-textarea",
    "textarea[placeholder*='Ask about this repository']",
    "new-message-form textarea",
    "chat textarea"
  ]

  const SUBMIT_BUTTON_SELECTORS: seq<string> := [
    "button[data-test-id='send-message-button']",
    "button[aria-label='Send message']",
    "new-message-form button[type='submit']",
    "chat .send-button"
  ]

  const RESPONSE_ELEMENT_SELECTORS: seq<string> := [
    "chat .cdk-virtual-scroll-content-wrapper documentation-markdown",
    "chat .cdk-virtual-scroll-content-wrapper",
    "chat thread"
  ]

  /** The settings the module computes once, at import. */
  datatype Settings = Settings(
    hardTimeoutSeconds: int,
    pageLoadTimeoutSeconds: int,
    elementWaitTimeoutSeconds: int,
    responseWaitTimeoutSeconds: int,
    httpxTimeoutSeconds: int,
    maxRetries: int,
    retryDelaySeconds: int,
    responseMaxChars: int,
    cacheTtlSeconds: int,
    cacheMaxSize: int,
    responseInitialDelaySeconds: int,
    responsePollIntervalSeconds: int,
    responseStableIntervalSeconds: int,
    jsLoadDelaySeconds: int,
    verbose: bool,
    baseUrl: string)

  /** Reads every setting from `env`, each with its default. */
  function Load(env: Environment): (s: Settings)
    ensures "CODEWIKI_BASE_URL" !in env ==> s.baseUrl == DEFAULT_BASE_URL
    ensures "CODEWIKI_BASE_URL" in env ==> s.baseUrl == env["CODEWIKI_BASE_URL"]
  {
    Settings(
      EnvInt(env, "CODEWIKI_HARD_TIMEOUT", DEFAULT_HARD_TIMEOUT_SECONDS),
      EnvInt(env, "CODEWIKI_PAGE_LOAD_TIMEOUT", DEFAULT_PAGE_LOAD_TIMEOUT_SECONDS),
      EnvInt(env, "CODEWIKI_ELEMENT_WAIT_TIMEOUT", DEFAULT_ELEMENT_WAIT_TIMEOUT_SECONDS),
      EnvInt(env, "CODEWIKI_RESPONSE_WAIT_TIMEOUT", DEFAULT_RESPONSE_WAIT_TIMEOUT_SECONDS),
      EnvInt(env, "CODEWIKI_HTTPX_TIMEOUT", DEFAULT_HTTPX_TIMEOUT_SECONDS),
      EnvInt(env, "CODEWIKI_MAX_RETRIES", DEFAULT_MAX_RETRIES),
      EnvInt(env, "CODEWIKI_RETRY_DELAY", DEFAULT_RETRY_DELAY_SECONDS),
      EnvInt(env, "CODEWIKI_RESPONSE_MAX_CHARS", DEFAULT_RESPONSE_MAX_CHARS),
      EnvInt(env, "CODEWIKI_CACHE_TTL", DEFAULT_CACHE_TTL_SECONDS),
      EnvInt(env, "CODEWIKI_CACHE_MAX_SIZE", DEFAULT_CACHE_MAX_SIZE),
      EnvInt(env, "CODEWIKI_RESPONSE_INITIAL_DELAY", DEFAULT_RESPONSE_INITIAL_DELAY_SECONDS),
      EnvInt(env, "CODEWIKI_RESPONSE_POLL_INTERVAL", DEFAULT_RESPONSE_POLL_INTERVAL_SECONDS),
      EnvInt(env, "CODEWIKI_RESPONSE_STABLE_INTERVAL", DEFAULT_RESPONSE_STABLE_INTERVAL_SECONDS),
      EnvInt(env, "CODEWIKI_JS_LOAD_DELAY", DEFAULT_JS_LOAD_DELAY_SECONDS),
      EnvBool(env, "CODEWIKI_VERBOSE", false),
      if "CODEWIKI_BASE_URL" in env then env["CODEWIKI_BASE_URL"] else DEFAULT_BASE_URL)
  }

  // ----- properties -------------------------------------------------------

  lemma {:induction false} NatToStringDigitPart(n: nat)
    ensures IsDigitPart(NatToString(n))
    ensures DigitsValue(NatToString(n)) == n
    decreases n
  {
    var s := NatToString(n);
    if n >= 10 {
      NatToStringDigitPart(n / 10);
      var p := NatToString(n / 10);
      assert s[..|s| - 1] == p;
    }
  }

  /** `int(str(n))` is `n`: an integer written by Python's `str` is read
      back unchanged, with or without surrounding whitespace. */
  lemma IntRoundTrip(n: int, pad: string)
    requires forall i :: 0 <= i < |pad| ==> IsSpace(pad[i])
    ensures ParseInt(pad + IntToString(n) + pad) == Some(n)
  {
    var body := IntToString(n);
    NatToStringDigitPart(if n < 0 then -n else n);
    assert body[0] == '-' || IsDigit(body[0]);
    assert !IsSpace(body[0]) && !IsSpace(body[|body| - 1]);
    StripPadded(pad, body);
    if n < 0 {
      assert body[1..] == NatToString(-n);
    }
  }

  lemma StripPadded(pad: string, body: string)
    requires forall i :: 0 <= i < |pad| ==> IsSpace(pad[i])
    requires |body| > 0 && !IsSpace(body[0]) && !IsSpace(body[|body| - 1])
    ensures Strip(pad + body + pad) == body
  {
    assert pad + body + pad == pad + (body + pad);
    LStripSpaces(pad, body + pad);
    LStripNoLeadingSpace(body + pad);
    RStripSpaces(body, pad);
    RStripNoTrailingSpace(body);
  }

  /** Leading whitespace does not change what `lstrip` keeps. */
  lemma {:induction false} LStripSpaces(pad: string, x: string)
    requires forall i :: 0 <= i < |pad| ==> IsSpace(pad[i])
    ensures LStrip(pad + x) == LStrip(x)
    decreases |pad|
  {
    if |pad| == 0 {
      assert pad + x == x;
    } else {
      assert (pad + x)[0] == pad[0];
      assert (pad + x)[1..] == pad[1..] + x;
      LStripSpaces(pad[1..], x);
    }
  }

  /** Trailing whitespace does not change what `rstrip` keeps. */
  lemma {:induction false} RStripSpaces(x: string, pad: string)
    requires forall i :: 0 <= i < |pad| ==> IsSpace(pad[i])
    ensures RStrip(x + pad) == RStrip(x)
    decreases |pad|
  {
    if |pad| == 0 {
      assert x + pad == x;
    } else {
      assert (x + pad)[|x + pad| - 1] == pad[|pad| - 1];
      assert (x + pad)[..|x + pad| - 1] == x + pad[..|pad| - 1];
      RStripSpaces(x, pad[..|pad| - 1]);
    }
  }

  /** A boolean setting written as "true"/"false" in any letter case is read
      back as that boolean. */
  lemma EnvBoolRoundTrip(env: Environment, name: string, b: bool, d: bool)
    requires name in env && Lower(Strip(env[name])) == (if b then "true" else "false")
    ensures EnvBool(env, name, b) == b && EnvBool(env, name, d) == b
  {
  }

  /** A boolean setting departs from its default only when the value is one
      of the six recognised words. */
  lemma EnvBoolOnlyRecognised(env: Environment, name: string, d: bool)
    requires EnvBool(env, name, d) != d
    ensures name in env
    ensures Lower(Strip(env[name])) in {"1", "true", "yes", "0", "false", "no"}
  {
  }

  /** With nothing set, every setting takes its documented default. */
  lemma DefaultsWithEmptyEnvironment()
    ensures Load(map[]) == Settings(60, 30, 20, 45, 30, 2, 3, 30000, 300, 50, 5, 2, 2, 3, false, "https://codewiki.google")
  {
  }

  /** A variable holding a written integer overrides the default. */
  lemma EnvIntReadsValue(env: Environment, name: string, n: int, d: int)
    requires name in env && env[name] == IntToString(n)
    ensures EnvInt(env, name, d) == n
  {
    var v := IntToString(n);
    IntRoundTrip(n, "");
    assert "" + v + "" == v;
    assert ParseInt(v) == Some(n);
  }

  /** Overrides apply: "120" and "5" are read as numbers. */
  lemma IntOverridesApply(env: Environment)
    requires env == map["CODEWIKI_HARD_TIMEOUT" := "120", "CODEWIKI_MAX_RETRIES" := "5"]
    ensures Load(env).hardTimeoutSeconds == 120 && Load(env).maxRetries == 5
  {
    assert NatToString(1) == "1";
    assert NatToString(12) == NatToString(1) + "2";
    assert NatToString(120) == NatToString(12) + "0";
    EnvIntReadsValue(env, "CODEWIKI_HARD_TIMEOUT", 120, DEFAULT_HARD_TIMEOUT_SECONDS);
    EnvIntReadsValue(env, "CODEWIKI_MAX_RETRIES", 5, DEFAULT_MAX_RETRIES);
  }

  /** "1", "true" or "yes", in any letter case and with any surrounding
      whitespace, switches verbose logging on; "0", "false" or "no" off. */
  lemma VerboseOverrideApplies(env: Environment)
    requires "CODEWIKI_VERBOSE" in env
    ensures Lower(Strip(env["CODEWIKI_VERBOSE"])) in {"1", "true", "yes"} ==> Load(env).verbose
    ensures Lower(Strip(env["CODEWIKI_VERBOSE"])) in {"0", "false", "no"} ==> !Load(env).verbose
  {
  }

  /** A value that is not an integer falls back to the default. */
  lemma InvalidValueGivesDefault()
    ensures EnvInt(map["CODEWIKI_HARD_TIMEOUT" := "not_a_number"], "CODEWIKI_HARD_TIMEOUT", 60) == 60
  {
    var t := "not_a_number";
    assert !IsSpace(t[0]) && !IsSpace(t[|t| - 1]);
    assert Strip(t) == t;
    assert !IsDigitPart(t);
  }
}
