/** Input validation and the structured tool response
    (codewiki_mcp/types.py). */
module Types {
  import opened Wrappers
  import opened Text

  // ----- response envelope ----------------------------------------------

  datatype ResponseStatus = OK | ERROR | PARTIAL

  /** The error codes tools report. RATE_LIMITED is raised by callers of
      this module; it is included so they can be modelled. */
  datatype ErrorCode =
    | VALIDATION | TIMEOUT | DRIVER_ERROR | NO_CONTENT | INPUT_NOT_FOUND
    | INTERNAL | RETRY_EXHAUSTED | RATE_LIMITED

  /** Response metadata (the elapsed-time field is not modelled). */
  datatype ResponseMeta = ResponseMeta(charCount: int, attempt: int, maxAttempts: int, truncated: bool)

  const DEFAULT_META := ResponseMeta(0, 1, 1, false)

  datatype ToolResponse = ToolResponse(
    status: ResponseStatus,
    code: Option<ErrorCode>,
    message: Option<string>,
    data: Option<string>,
    repoUrl: Option<string>,
    query: Option<string>,
    meta: ResponseMeta)
  {
    predicate IsOk() { status == OK }
  }

  /** `ToolResponse.success`: status OK carrying `data`, with the character
      count of `data` recorded in the metadata. */
  function Success(data: string, repoUrl: Option<string>, query: Option<string>, meta: ResponseMeta): (r: ToolResponse)
    ensures r.status == OK && r.code.None? && r.message.None?
    ensures r.data == Some(data) && r.meta.charCount == |data|
    ensures r.repoUrl == repoUrl && r.query == query
    ensures r.meta.attempt == meta.attempt && r.meta.maxAttempts == meta.maxAttempts
    ensures r.meta.truncated == meta.truncated
  {
    ToolResponse(OK, None, None, Some(data), repoUrl, query, meta.(charCount := |data|))
  }

  /** `ToolResponse.error`: status ERROR with the given code and message. */
  function Error(code: ErrorCode, message: string, repoUrl: Option<string>, query: Option<string>, meta: ResponseMeta): (r: ToolResponse)
    ensures r.status == ERROR && r.code == Some(code) && r.message == Some(message)
    ensures r.data.None? && r.repoUrl == repoUrl && r.query == query && r.meta == meta
  {
    ToolResponse(ERROR, Some(code), Some(message), None, repoUrl, query, meta)
  }

  // ----- the two repository patterns --------------------------------------

  /** Length of the longest prefix of `s` made of `[\w.\-]` characters. */
  function NameRun(s: string): (n: nat)
    ensures n <= |s|
    ensures forall i :: 0 <= i < n ==> IsNameChar(s[i])
    ensures n < |s| ==> !IsNameChar(s[n])
  {
    if |s| > 0 && IsNameChar(s[0]) then 1 + NameRun(s[1..]) else 0
  }

  /** Regex `$` after a match of length `k` of `s`: at the end, or just
      before a final newline. */
  predicate AtEnd(s: string, k: nat) {
    k == |s| || (k == |s| - 1 && s[k] == '\n')
  }

  /** `OWNER_REPO_PATTERN.match(v)`, i.e. `^[\w.\-]+/[\w.\-]+$`. */
  predicate IsOwnerRepo(v: string) {
    var n1 := NameRun(v);
    && 0 < n1 < |v| && v[n1] == '/'
    && var q := v[n1 + 1..];
       NameRun(q) > 0 && AtEnd(q, NameRun(q))
  }

  /** What is left after `https?://`, if that is how `v` starts. */
  function SchemeRest(v: string): (r: Option<string>)
    ensures r.Some? ==> |r.value| < |v| && r.value == v[|v| - |r.value|..]
  {
    if |v| >= 8 && v[..8] == "https://" then Some(v[8..])
    else if |v| >= 7 && v[..7] == "http://" then Some(v[7..])
    else None
  }

  /** What is left after one of the three accepted hosts and a slash. */
  function HostRest(r: string): Option<string> {
    if |r| >= 11 && (r[..11] == "github.com/" || r[..11] == "gitlab.com/") then Some(r[11..])
    else if |r| >= 14 && r[..14] == "bitbucket.org/" then Some(r[14..])
    else None
  }

  /** `(/.*)?$` matching all of `t`: nothing (or a final newline), or a slash
      followed by characters none of which is a newline except possibly the
      last. */
  predicate PathTail(t: string) {
    || AtEnd(t, 0)
    || (|t| > 0 && t[0] == '/' && forall i :: 1 <= i < |t| - 1 ==> t[i] != '\n')
  }

  /** `[\w.\-]+/[\w.\-]+(/.*)?$` matching all of `p`. */
  predicate OwnerRepoPath(p: string) {
    var n1 := NameRun(p);
    && 0 < n1 < |p| && p[n1] == '/'
    && var q := p[n1 + 1..];
       NameRun(q) > 0 && PathTail(q[NameRun(q)..])
  }

  /** `REPO_URL_PATTERN.match(v)`. */
  predicate IsRepoUrl(v: string) {
    match SchemeRest(v)
    case None => false
    case Some(r) =>
      match HostRest(r)
      case None => false
      case Some(p) => OwnerRepoPath(p)
  }

  // ----- validators ------------------------------------------------------

  const INVALID_URL_HINT := "Expected https://github.com/owner/repo or owner/repo shorthand."

  /** `RepoInput.normalize_repo_url`: trim; reject empty; expand the
      owner/repo shorthand to a GitHub URL; otherwise accept only a URL of
      the recognised shape, unchanged. */
  function NormalizeRepoUrl(v: string): (r: Result<string, string>)
    ensures Strip(v) == [] ==> r == Err("repo_url must not be empty")
    ensures Strip(v) != [] && IsOwnerRepo(Strip(v)) ==> r == Ok("https://github.com/" + Strip(v))
    ensures Strip(v) != [] && !IsOwnerRepo(Strip(v)) ==> (r.Ok? <==> IsRepoUrl(Strip(v)))
    ensures r.Ok? && !IsOwnerRepo(Strip(v)) ==> r.value == Strip(v)
  {
    var t := Strip(v);
    if t == [] then Err("repo_url must not be empty")
    else if IsOwnerRepo(t) then Ok("https://github.com/" + t)
    else if !IsRepoUrl(t) then Err("Invalid repository URL: '" + t + "'. " + INVALID_URL_HINT)
    else Ok(t)
  }

  /** A required text field: pydantic's `min_length=1` first, then the
      not-blank check that names the field. */
  function NotBlank(field: string, v: string): (r: Result<string, string>)
    ensures r.Ok? <==> Strip(v) != []
    ensures r.Ok? ==> r.value == v
  {
    if |v| < 1 then Err("String should have at least 1 character")
    else if Strip(v) == [] then Err(field + " must not be blank")
    else Ok(v)
  }

  /** One failed field: its name and the reason. */
  datatype FieldError = FieldError(field: string, reason: string)

  /** The errors of one field's validation, if it failed. */
  function FieldErrors(field: string, v: Result<string, string>): (r: seq<FieldError>)
    ensures |r| == if v.Err? then 1 else 0
  {
    if v.Err? then [FieldError(field, v.error)] else []
  }

  /** The outline of the text pydantic gives a failed model: a header
      counting the errors and naming the model, then each field with the
      text of its error. pydantic's own decoration of each error is not
      reproduced. */
  function ValidationMessage(model: string, errors: seq<FieldError>): string {
    IntToString(|errors|) + (if |errors| == 1 then " validation error for " else " validation errors for ")
      + model + ErrorLines(errors)
  }

  function ErrorLines(errors: seq<FieldError>): string
    decreases |errors|
  {
    if |errors| == 0 then ""
    else "\n" + errors[0].field + "\n  " + errors[0].reason + ErrorLines(errors[1..])
  }

  datatype SearchInput = SearchInput(repoUrl: string, query: string)
  datatype TopicsInput = TopicsInput(repoUrl: string)
  datatype SectionInput = SectionInput(repoUrl: string, sectionTitle: string)

  /** `validate_search_input`: the validated input, or a VALIDATION error
      that echoes both raw arguments. */
  function ValidateSearchInput(repoUrl: string, query: string): (r: Result<SearchInput, ToolResponse>)
    ensures r.Ok? <==> NormalizeRepoUrl(repoUrl).Ok? && Strip(query) != []
    ensures r.Ok? ==> r.value == SearchInput(NormalizeRepoUrl(repoUrl).value, query)
    ensures r.Err? ==> r.error.status == ERROR && r.error.code == Some(VALIDATION)
    ensures r.Err? ==> r.error.repoUrl == Some(repoUrl) && r.error.query == Some(query)
  {
    var u := NormalizeRepoUrl(repoUrl);
    var q := NotBlank("query", query);
    if u.Ok? && q.Ok? then Ok(SearchInput(u.value, q.value))
    else
      var errs := FieldErrors("repo_url", u) + FieldErrors("query", q);
      Err(Error(VALIDATION, ValidationMessage("SearchInput", errs), Some(repoUrl), Some(query), DEFAULT_META))
  }

  /** `validate_topics_input`: a VALIDATION error echoes the raw URL only. */
  function ValidateTopicsInput(repoUrl: string): (r: Result<TopicsInput, ToolResponse>)
    ensures r.Ok? <==> NormalizeRepoUrl(repoUrl).Ok?
    ensures r.Ok? ==> r.value.repoUrl == NormalizeRepoUrl(repoUrl).value
    ensures r.Err? ==> r.error.status == ERROR && r.error.code == Some(VALIDATION)
    ensures r.Err? ==> r.error.repoUrl == Some(repoUrl) && r.error.query.None?
  {
    var u := NormalizeRepoUrl(repoUrl);
    if u.Ok? then Ok(TopicsInput(u.value))
    else Err(Error(VALIDATION, ValidationMessage("TopicsInput", FieldErrors("repo_url", u)), Some(repoUrl), None, DEFAULT_META))
  }

  /** `validate_section_input`: a VALIDATION error echoes the raw URL only. */
  function ValidateSectionInput(repoUrl: string, sectionTitle: string): (r: Result<SectionInput, ToolResponse>)
    ensures r.Ok? <==> NormalizeRepoUrl(repoUrl).Ok? && Strip(sectionTitle) != []
    ensures r.Ok? ==> r.value == SectionInput(NormalizeRepoUrl(repoUrl).value, sectionTitle)
    ensures r.Err? ==> r.error.status == ERROR && r.error.code == Some(VALIDATION)
    ensures r.Err? ==> r.error.repoUrl == Some(repoUrl) && r.error.query.None?
  {
    var u := NormalizeRepoUrl(repoUrl);
    var s := NotBlank("section_title", sectionTitle);
    if u.Ok? && s.Ok? then Ok(SectionInput(u.value, s.value))
    else
      var errs := FieldErrors("repo_url", u) + FieldErrors("section_title", s);
      Err(Error(VALIDATION, ValidationMessage("SectionInput", errs), Some(repoUrl), None, DEFAULT_META))
  }

  // ----- properties -------------------------------------------------------

  /** The expansion of a shorthand has the recognised URL shape and is not
      itself a shorthand. */
  lemma ExpandedShorthandIsUrl(t: string)
    requires Trimmed(t) && IsOwnerRepo(t)
    ensures var u := "https://github.com/" + t;
      IsRepoUrl(u) && !IsOwnerRepo(u) && Strip(u) == u
  {
    ExpandedIsUrl(t);
    GithubUrlParts(t);
    SchemeIsNotShorthand("https://github.com/" + t);
    ExpandedIsTrimmed(t);
  }

  lemma ExpandedIsUrl(t: string)
    requires Trimmed(t) && IsOwnerRepo(t)
    ensures IsRepoUrl("https://github.com/" + t)
  {
    GithubUrlParts(t);
    ShorthandIsPath(t);
  }

  lemma ExpandedIsTrimmed(t: string)
    requires Trimmed(t) && |t| > 0
    ensures Strip("https://github.com/" + t) == "https://github.com/" + t
  {
    var u := "https://github.com/" + t;
    assert u[0] == 'h' && u[|u| - 1] == t[|t| - 1];
  }

  /** The scheme and host of an expanded shorthand peel off to leave the
      shorthand. */
  lemma GithubUrlParts(t: string)
    ensures SchemeRest("https://github.com/" + t) == Some("github.com/" + t)
    ensures HostRest("github.com/" + t) == Some(t)
  {
    var u := "https://github.com/" + t;
    assert u[..8] == "https://";
    assert u[8..] == "github.com/" + t;
    assert ("github.com/" + t)[..11] == "github.com/";
    assert ("github.com/" + t)[11..] == t;
  }

  /** A trimmed shorthand is an owner/repo path with nothing after it. */
  lemma ShorthandIsPath(t: string)
    requires Trimmed(t) && IsOwnerRepo(t)
    ensures OwnerRepoPath(t)
  {
    var n1 := NameRun(t);
    var q := t[n1 + 1..];
    // `t` ends in a name character, so the repository run reaches its end.
    assert NameRun(q) == |q| by {
      assert q[|q| - 1] == t[|t| - 1];
      assert q[|q| - 1] != '\n' by { assert !IsSpace(t[|t| - 1]); }
    }
    assert PathTail(q[|q|..]);
  }

  /** A run of name characters of length `k` ended by another character. */
  lemma {:induction false} NameRunPrefix(s: string, k: nat)
    requires k < |s| && !IsNameChar(s[k]) && forall i :: 0 <= i < k ==> IsNameChar(s[i])
    ensures NameRun(s) == k
    decreases k
  {
    if k > 0 {
      NameRunPrefix(s[1..], k - 1);
    }
  }

  /** A URL of the recognised shape is not an owner/repo shorthand: its
      first segment stops at the colon of the scheme. */
  lemma UrlIsNotShorthand(v: string)
    requires IsRepoUrl(v)
    ensures !IsOwnerRepo(v)
  {
    SchemeIsNotShorthand(v);
  }

  lemma SchemeIsNotShorthand(v: string)
    requires SchemeRest(v).Some?
    ensures !IsOwnerRepo(v)
  {
    if |v| >= 8 && v[..8] == "https://" {
      SchemePrefix(v, "https://");
      StopsBeforeSlash(v, 5);
    } else {
      SchemePrefix(v, "http://");
      StopsBeforeSlash(v, 4);
    }
  }

  /** `v` starts with `scheme`, character by character. */
  lemma SchemePrefix(v: string, scheme: string)
    requires |v| >= |scheme| && v[..|scheme|] == scheme
    ensures forall i :: 0 <= i < |scheme| ==> v[i] == scheme[i]
  {
    forall i | 0 <= i < |scheme|
      ensures v[i] == scheme[i]
    {
      assert v[i] == v[..|scheme|][i];
    }
  }

  /** A text whose first name run ends before any slash, at a character
      that is not a slash, is not a shorthand. */
  lemma StopsBeforeSlash(v: string, k: nat)
    requires k < |v| && !IsNameChar(v[k]) && v[k] != '/'
    requires forall i :: 0 <= i < k ==> v[i] != '/'
    ensures !IsOwnerRepo(v)
  {
    assert NameRun(v) <= k;
  }

  /** Every accepted identifier normalises to a trimmed URL of the
      recognised shape. */
  lemma NormalizedIsUrl(v: string)
    requires NormalizeRepoUrl(v).Ok?
    ensures IsRepoUrl(NormalizeRepoUrl(v).value)
    ensures Strip(NormalizeRepoUrl(v).value) == NormalizeRepoUrl(v).value
  {
    var t := Strip(v);
    if IsOwnerRepo(t) {
      ExpandedShorthandIsUrl(t);
    } else {
      StripIdempotent(v);
    }
  }

  /** Normalisation is idempotent. */
  lemma NormalizeIdempotent(v: string)
    requires NormalizeRepoUrl(v).Ok?
    ensures NormalizeRepoUrl(NormalizeRepoUrl(v).value) == NormalizeRepoUrl(v)
  {
    var u := NormalizeRepoUrl(v).value;
    NormalizedIsUrl(v);
    UrlIsNotShorthand(u);
  }

  /** `owner/repo` built from two name segments is a shorthand. */
  lemma JoinedIsShorthand(owner: string, repo: string)
    requires |owner| > 0 && |repo| > 0
    requires forall i :: 0 <= i < |owner| ==> IsNameChar(owner[i])
    requires forall i :: 0 <= i < |repo| ==> IsNameChar(repo[i])
    ensures IsOwnerRepo(owner + "/" + repo)
  {
    var t := owner + "/" + repo;
    assert NameRun(t) == |owner| by {
      assert forall i :: 0 <= i < |owner| ==> t[i] == owner[i];
      assert t[|owner|] == '/';
      NameRunPrefix(t, |owner|);
    }
    assert t[|owner| + 1..] == repo;
    NameRunAll(repo);
  }

  lemma JoinedIsTrimmed(owner: string, repo: string)
    requires |owner| > 0 && |repo| > 0
    requires forall i :: 0 <= i < |owner| ==> IsNameChar(owner[i])
    requires forall i :: 0 <= i < |repo| ==> IsNameChar(repo[i])
    ensures Strip(owner + "/" + repo) == owner + "/" + repo
  {
    var t := owner + "/" + repo;
    assert t[0] == owner[0] && t[|t| - 1] == repo[|repo| - 1];
  }

  /** A shorthand and its expanded URL normalise to the same string. */
  lemma ShorthandAndUrlAgree(owner: string, repo: string)
    requires |owner| > 0 && |repo| > 0
    requires forall i :: 0 <= i < |owner| ==> IsNameChar(owner[i])
    requires forall i :: 0 <= i < |repo| ==> IsNameChar(repo[i])
    ensures NormalizeRepoUrl(owner + "/" + repo) == Ok("https://github.com/" + owner + "/" + repo)
    ensures NormalizeRepoUrl("https://github.com/" + owner + "/" + repo) == Ok("https://github.com/" + owner + "/" + repo)
  {
    var t := owner + "/" + repo;
    JoinedIsShorthand(owner, repo);
    JoinedIsTrimmed(owner, repo);
    assert "https://github.com/" + owner + "/" + repo == "https://github.com/" + t;
    assert NormalizeRepoUrl(t) == Ok("https://github.com/" + t);
    NormalizeIdempotent(t);
  }

  lemma {:induction false} NameRunAll(s: string)
    requires forall i :: 0 <= i < |s| ==> IsNameChar(s[i])
    ensures NameRun(s) == |s|
    decreases |s|
  {
    if |s| > 0 {
      NameRunAll(s[1..]);
    }
  }

  /** An identifier with no slash at all is rejected. */
  lemma NoSlashRejected(v: string)
    requires '/' !in v
    ensures NormalizeRepoUrl(v).Err?
  {
    StripKeepsAbsent(v, '/');
    NoSlashNeither(Strip(v));
  }

  /** A text with no slash is neither a shorthand nor a URL. */
  lemma NoSlashNeither(t: string)
    requires '/' !in t
    ensures !IsRepoUrl(t) && !IsOwnerRepo(t)
  {
    assert |t| >= 8 ==> t[..8] != "https://" by {
      if |t| >= 8 {
        assert t[..8][6] == t[6];
      }
    }
    assert |t| >= 7 ==> t[..7] != "http://" by {
      if |t| >= 7 {
        assert t[..7][5] == t[5];
      }
    }
    var n := NameRun(t);
    if n < |t| {
      assert t[n] in t;
    }
  }

  /** "bad" is rejected, and a search with it is a VALIDATION error. */
  lemma BadIsRejected()
    ensures NormalizeRepoUrl("bad").Err?
    ensures ValidateSearchInput("bad", "test").Err?
    ensures ValidateSearchInput("bad", "test").error.code == Some(VALIDATION)
  {
    NoSlashRejected("bad");
  }

  /** Surrounding whitespace never changes the outcome. */
  lemma NormalizeIgnoresPadding(v: string)
    ensures NormalizeRepoUrl(Strip(v)) == NormalizeRepoUrl(v)
  {
    StripIdempotent(v);
  }
}
