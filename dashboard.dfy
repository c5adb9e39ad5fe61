/**
  The dashboard page (app/page.js): its form-submission handler, which
  validates the form before posting it, and its delete handler, which
  filters the list of links. Rendering is not modelled.

  The page's state becomes the fields of class Dashboard. A submission is
  two steps, because the handler suspends at `await fetch`: HandleSubmit
  runs up to sending the request, and CompleteSubmit runs once the
  response (an input here) has arrived. What `confirm` answers and whether
  the delete request succeeded are inputs as well.
 */
module DashboardPage {
  import opened Wrappers
  import opened JsText
  import opened CodeFormat
  import LinksRoute

  /** The JSON the form posts: the URL as typed, and the code unless it
      is empty. */
  datatype CreateRequest = CreateRequest(url: string, code: Option<string>)

  /** The response body as `res.json()` sees it: not JSON at all (the
      call rejects), the JSON value `null` (reading a field of it throws),
      or any other JSON value, whose `error` field reads as "" when it is
      absent or empty and whose `code` field is None when absent. */
  datatype ReplyJson = NotJson | NullJson | Fields(error: string, code: Option<string>)

  /** What `fetch` gives back: a thrown network error, or a response. */
  datatype FetchResult = NetworkError | Response(status: int, body: ReplyJson)

  /** What the page shows once a response has been handled. */
  datatype Effect = ShowError(message: string) | ShowCreated(code: string)

  const UrlRequired: string := "URL is required"
  const EnterValidUrl: string := "Please enter a valid URL (including http/https)"
  const InvalidCode: string := "Code must be 6\U{2013}8 letters or numbers"
  const CodeExists: string := "Code already exists"
  const CreateFailed: string := "Failed to create link"
  const NetworkFailure: string := "Network error"
  const CreatedPrefix: string := "Created short link "

  /** A string field interpolated into a template literal: an absent one
      prints as "undefined". */
  function TemplateText(field: Option<string>): string {
    match field
    case Some(s) => s
    case None => "undefined"
  }

  /** JavaScript's `s || fallback` on strings. */
  function OrElse(s: string, fallback: string): string {
    if s != "" then s else fallback
  }

  // ---------------------------------------------------------------------
  // The pre-request gate of handleSubmit

  /** The checks handleSubmit makes before it sends anything: the URL must
      not be blank, must parse, and a non-empty code must match CODE_REGEX
      as typed (the page does not trim it). */
  function CheckSubmission(url: string, code: string, isValidUrl: string -> bool): (r: Result<CreateRequest, string>)
    ensures r.Success? ==> r.value.url == url && Trim(url) != "" && isValidUrl(url)
    ensures r.Success? && r.value.code.Some? ==> r.value.code.value == code && MatchesCodeRegex(code)
    ensures r.Failure? ==> r.error in {UrlRequired, EnterValidUrl, InvalidCode}
  {
    if Trim(url) == "" then Failure(UrlRequired)
    else if !isValidUrl(url) then Failure(EnterValidUrl)
    else if code != "" && !MatchesCodeRegex(code) then Failure(InvalidCode)
    else Success(CreateRequest(url, if code == "" then None else Some(code)))
  }

  /** The gate lets a submission through exactly when the URL has a
      non-white-space character and parses and the code is empty or
      well formed; what it sends is the URL as typed with the code, or no
      code when it was empty. A blocked submission names the first failed
      check. */
  lemma GateAdmitsExactlyWellFormedForms(url: string, code: string, isValidUrl: string -> bool)
    ensures CheckSubmission(url, code, isValidUrl).Success? <==>
              (exists i :: 0 <= i < |url| && !IsWhiteSpace(url[i]))
              && isValidUrl(url) && (code == "" || MatchesCodeRegex(code))
    ensures CheckSubmission(url, code, isValidUrl).Success? ==>
              CheckSubmission(url, code, isValidUrl).value
                == CreateRequest(url, if code == "" then None else Some(code))
    ensures CheckSubmission(url, code, isValidUrl).Failure? ==>
              CheckSubmission(url, code, isValidUrl).error
                == if Trim(url) == "" then UrlRequired
                   else if !isValidUrl(url) then EnterValidUrl
                   else InvalidCode
  {
    TrimEmptyIffAllWhiteSpace(url);
  }

  /** The page checks the code as typed while the server trims it first:
      " abc123" is refused here although its trim, which the server would
      check, is well formed (see PaddedCodeTrimsToValid). */
  lemma GateDoesNotTrimCode(url: string, isValidUrl: string -> bool)
    requires Trim(url) != "" && isValidUrl(url)
    ensures CheckSubmission(url, " abc123", isValidUrl) == Failure(InvalidCode)
  {
    var padded := " abc123";
    assert !IsAlphanumeric(padded[0]);
  }

  lemma PaddedCodeTrimsToValid()
    ensures Trim(" abc123") == "abc123" && MatchesCodeRegex("abc123")
  {
    var padded, typed := " abc123", "abc123";
    assert forall i :: 0 <= i < |typed| ==> IsAlphanumeric(typed[i]);
    TrimDropsLeadingWhiteSpace(padded);
    assert padded[1..] == typed;
    RegexMatchIsTrimmed(typed);
  }

  /** The body JSON.stringify produces: an undefined code is dropped. */
  function RequestBody(request: CreateRequest): (body: LinksRoute.CreateBody)
    ensures LinksRoute.Truthy(body.url) && body.url.Str? <==> request.url != ""
    ensures LinksRoute.Truthy(body.code) && body.code.Str? <==>
              request.code.Some? && request.code.value != ""
    ensures !LinksRoute.Truthy(body.code) <==> request.code.None? || request.code == Some("")
  {
    LinksRoute.CreateBody(
      LinksRoute.Str(request.url),
      match request.code
      case None => LinksRoute.Undefined
      case Some(c) => LinksRoute.Str(c))
  }

  /** Whatever the gate lets through, the server never answers 400: the
      URL is a non-empty string the same parser accepts, and a custom code
      that matches the regex is unchanged by the server's trim. */
  lemma GatePreventsServerValidationErrors(
    url: string, code: string, isValidUrl: string -> bool,
    store: LinksRoute.Store, oracle: seq<nat>, id: string, now: int)
    requires LinksRoute.ValidOracle(oracle)
    requires CheckSubmission(url, code, isValidUrl).Success?
    ensures var body := RequestBody(CheckSubmission(url, code, isValidUrl).value);
            LinksRoute.PostOutcome(store, body, oracle, isValidUrl, id, now).0.status != 400
  {
    var request := CheckSubmission(url, code, isValidUrl).value;
    var body := RequestBody(request);
    assert url != "";
    if code != "" {
      RegexMatchIsTrimmed(code);
      LinksRoute.PostCustomCode(store, body, oracle, isValidUrl, id, now);
    } else {
      LinksRoute.PostGeneratedCode(store, body, oracle, isValidUrl, id, now);
    }
  }

  // ---------------------------------------------------------------------
  // Handling the response

  /** The outcome of the try block of handleSubmit. A body that is not
      JSON makes `res.json()` reject and a `null` body makes the field
      read throw; the catch reports both as a network error, except that
      the generic failure path falls back to an empty object for a body
      that is not JSON. Every error shown is non-empty, and only a 2xx
      response with a JSON body other than `null` counts as created. */
  function ResponseEffect(result: FetchResult): (e: Effect)
    ensures e.ShowError? ==> e.message != ""
    ensures e.ShowCreated? <==> result.Response? && 200 <= result.status <= 299 && result.body.Fields?
  {
    match result
    case NetworkError => ShowError(NetworkFailure)
    case Response(status, body) =>
      if status == 409 then
        if !body.Fields? then ShowError(NetworkFailure)
        else ShowError(OrElse(body.error, CodeExists))
      else if !(200 <= status <= 299) then
        match body
        case NotJson => ShowError(CreateFailed)
        case NullJson => ShowError(NetworkFailure)
        case Fields(error, _) => ShowError(OrElse(error, CreateFailed))
      else if !body.Fields? then ShowError(NetworkFailure)
      else ShowCreated(TemplateText(body.code))
  }

  /** A 409 shows the server's message, or "Code already exists" when the
      body has none; any other failure status shows the server's message
      or "Failed to create link"; a created link is announced with its
      code, or with "undefined" when the body has no code. */
  lemma ResponseEffectCases(result: FetchResult)
    ensures result.Response? && result.status == 409 && result.body.Fields? ==>
              ResponseEffect(result) == ShowError(OrElse(result.body.error, CodeExists))
    ensures result.Response? && result.status != 409 && !(200 <= result.status <= 299) && result.body.Fields? ==>
              ResponseEffect(result) == ShowError(OrElse(result.body.error, CreateFailed))
    ensures result.Response? && 200 <= result.status <= 299 && result.body.Fields? && result.body.code.None? ==>
              ResponseEffect(result) == ShowCreated("undefined")
  {
  }

  /** The response the server's reply reaches the page as. */
  function Delivered(reply: LinksRoute.Reply): FetchResult {
    Response(reply.status,
      match reply.payload
      case Record(link) => Fields("", Some(link.code))
      case Records(_) => Fields("", None)
      case Message(e) => Fields(e, None))
  }

  /** Every reply the POST handler can give reaches the page as what the
      server meant: a 201 shows the code the server stored, any other
      status shows the server's own error message. */
  lemma PostReplyShownFaithfully(
    store: LinksRoute.Store, body: LinksRoute.CreateBody, oracle: seq<nat>,
    isValidUrl: string -> bool, id: string, now: int)
    requires LinksRoute.ValidOracle(oracle)
    ensures var reply := LinksRoute.PostOutcome(store, body, oracle, isValidUrl, id, now).0;
            ResponseEffect(Delivered(reply)) ==
              if reply.status == 201 then ShowCreated(reply.payload.link.code)
              else ShowError(reply.payload.error)
  {
    var reply := LinksRoute.PostOutcome(store, body, oracle, isValidUrl, id, now).0;
    ShownFaithfully(reply);
  }

  lemma ShownFaithfully(reply: LinksRoute.Reply)
    requires reply.status in {201, 400, 409, 500}
    requires reply.status == 201 <==> reply.payload.Record?
    requires reply.status != 201 ==> reply.payload.Message? && reply.payload.error != ""
    ensures ResponseEffect(Delivered(reply)) ==
              if reply.status == 201 then ShowCreated(reply.payload.link.code)
              else ShowError(reply.payload.error)
  {
  }

  // ---------------------------------------------------------------------
  // handleDelete's filter

  /** The list handleDelete keeps: the links whose code differs from the
      deleted one. */
  function WithoutCode(links: seq<LinksRoute.Link>, code: string): (r: seq<LinksRoute.Link>)
    ensures forall i :: 0 <= i < |r| ==> r[i].code != code
    ensures forall l :: multiset(r)[l] == if l.code == code then 0 else multiset(links)[l]
  {
    if links == [] then []
    else
      assert links == [links[0]] + links[1..];
      if links[0].code == code then WithoutCode(links[1..], code)
      else [links[0]] + WithoutCode(links[1..], code)
  }

  /** `a` is `b` with some elements left out and the rest in order. */
  predicate IsSubsequence<T(==)>(a: seq<T>, b: seq<T>)
    decreases |b|
  {
    if a == [] then true
    else if b == [] then false
    else if a[0] == b[0] then IsSubsequence(a[1..], b[1..])
    else IsSubsequence(a, b[1..])
  }

  /** The filter keeps the remaining links in their original order. */
  lemma {:induction false} WithoutCodeKeepsOrder(links: seq<LinksRoute.Link>, code: string)
    ensures IsSubsequence(WithoutCode(links, code), links)
  {
    if links != [] {
      WithoutCodeKeepsOrder(links[1..], code);
    }
  }

  /** Deleting a code no link has changes nothing. */
  lemma {:induction false} WithoutAbsentCode(links: seq<LinksRoute.Link>, code: string)
    requires forall i :: 0 <= i < |links| ==> links[i].code != code
    ensures WithoutCode(links, code) == links
  {
    if links != [] {
      WithoutAbsentCode(links[1..], code);
    }
  }

  // ---------------------------------------------------------------------
  // The page's state

  class Dashboard {
    var links: seq<LinksRoute.Link>
    var url: string
    var code: string
    var loading: bool
    var error: string
    var success: string

    /** While a request is in flight no message is shown, and at most one
        of the error and success messages is shown at any time. */
    ghost predicate Valid()
      reads this
    {
      (loading ==> error == "" && success == "")
      && (error == "" || success == "")
    }

    /** The initial state of every useState call. */
    constructor ()
      ensures Valid()
      ensures links == [] && url == "" && code == ""
      ensures !loading && error == "" && success == ""
    {
      links, url, code := [], "", "";
      loading, error, success := false, "", "";
    }

    /** loadLinks: a successful GET replaces the list; a failed one leaves
        it (the error is only logged). */
    method LoadLinks(fetched: Option<seq<LinksRoute.Link>>)
      modifies this`links
      ensures links == if fetched.Some? then fetched.value else old(links)
    {
      if fetched.Some? {
        links := fetched.value;
      }
    }

    /** handleSubmit up to `await fetch`. Both messages are cleared first;
        a form the gate refuses shows the gate's message and sends nothing;
        otherwise loading is set and the request is returned for sending.
        The submit button is disabled while loading, so a submission never
        starts while one is in flight. */
    method HandleSubmit(isValidUrl: string -> bool) returns (request: Option<CreateRequest>)
      requires Valid() && !loading
      modifies this
      ensures Valid()
      ensures links == old(links) && url == old(url) && code == old(code)
      ensures success == ""
      ensures match CheckSubmission(old(url), old(code), isValidUrl)
              case Success(r) => request == Some(r) && loading && error == ""
              case Failure(e) => request == None && !loading && error == e
    {
      error := "";
      success := "";
      // The gate's verdict, which the checks below follow step by step.
      ghost var verdict := CheckSubmission(url, code, isValidUrl);
      if Trim(url) == "" {
        assert verdict == Failure(UrlRequired);
        error := UrlRequired;
        return None;
      }
      if !isValidUrl(url) {
        assert verdict == Failure(EnterValidUrl);
        error := EnterValidUrl;
        return None;
      }
      if code != "" && !MatchesCodeRegex(code) {
        assert verdict == Failure(InvalidCode);
        error := InvalidCode;
        return None;
      }
      loading := true;
      request := Some(CreateRequest(url, if code == "" then None else Some(code)));
      assert verdict == Success(request.value);
    }

    /** handleSubmit after `await fetch`: a failure shows its message and
        keeps the form; a success shows the created code, clears the form
        and reloads the list. The finally block clears loading on every
        path. */
    method CompleteSubmit(result: FetchResult, reloaded: Option<seq<LinksRoute.Link>>)
      requires Valid() && loading
      modifies this
      ensures Valid() && !loading
      ensures match ResponseEffect(result)
              case ShowError(m) =>
                error == m && success == "" && url == old(url) && code == old(code) && links == old(links)
              case ShowCreated(c) =>
                success == CreatedPrefix + c && error == "" && url == "" && code == ""
                && links == if reloaded.Some? then reloaded.value else old(links)
    {
      match result {
        case NetworkError =>
          error := NetworkFailure;
        case Response(status, body) =>
          if status == 409 {
            if !body.Fields? {
              error := NetworkFailure;
            } else {
              error := OrElse(body.error, CodeExists);
            }
          } else if !(200 <= status <= 299) {
            match body {
              case NotJson => error := CreateFailed;
              case NullJson => error := NetworkFailure;
              case Fields(e, _) => error := OrElse(e, CreateFailed);
            }
          } else if !body.Fields? {
            error := NetworkFailure;
          } else {
            success := CreatedPrefix + TemplateText(body.code);
            url := "";
            code := "";
            LoadLinks(reloaded);
          }
      }
      loading := false;
    }

    /** handleDelete: nothing happens unless the user confirms; a
        confirmed delete that the server acknowledges drops every link with
        that code, and one that fails leaves the list as it was. Returns
        whether a request was sent. */
    method HandleDelete(codeToDelete: string, confirmed: bool, deleted: bool) returns (requested: bool)
      modifies this`links
      ensures requested == confirmed
      ensures links == if confirmed && deleted then WithoutCode(old(links), codeToDelete) else old(links)
    {
      if !confirmed {
        return false;
      }
      requested := true;
      if deleted {
        links := WithoutCode(links, codeToDelete);
      }
    }
  }
}
