/** How one request becomes a chain of attempts and redirects. */
module HttpRedirectChain {
  import opened Wrappers
  import opened Text
  import opened HttpUrl
  import opened HttpRedirect

  type Header = (string, string)

  datatype Request = Request(method_: string, url: ParsedUrl, body: string, headers: seq<Header>)

  datatype Response = Response(status: int, headers: seq<Header>, body: string)

  datatype NetworkError = ConnectionLost | Timeout | ProtocolError | InvalidArgument | TransportFailed

  type Outcome = Result<Response, NetworkError>

  /** One try at a request and what came of it. */
  datatype Attempt = Attempt(request: Request, outcome: Outcome)

  predicate MethodIsRepeatable(m: string)
  {
    m == "GET" || m == "HEAD" || m == "OPTIONS"
  }

  /** The Location of a response, or "". */
  function RedirectLocation(headers: seq<Header>): string
  {
    if headers == [] then ""
    else if EqualsIgnoreCase(headers[0].0, "Location") then headers[0].1
    else RedirectLocation(headers[1..])
  }

  function WithoutCredentials(headers: seq<Header>): (kept: seq<Header>)
    ensures forall h :: h in kept <==> h in headers && !IsCredentialHeader(h.0)
  {
    if headers == [] then []
    else if IsCredentialHeader(headers[0].0) then WithoutCredentials(headers[1..])
    else [headers[0]] + WithoutCredentials(headers[1..])
  }

  predicate BecomesGet(status: int, m: string)
  {
    status == 303 || ((status == 301 || status == 302) && m != "GET" && m != "HEAD")
  }

  /** The request a redirect to `url` asks for. */
  function Redirected(request: Request, status: int, url: ParsedUrl): Request
  {
    var headers := if SameOrigin(request.url, url) then request.headers else WithoutCredentials(request.headers);
    if BecomesGet(status, request.method_) then Request("GET", url, "", headers)
    else Request(request.method_, url, request.body, headers)
  }

  // ---------------------------------------------------------------------------
  // Chains
  // ---------------------------------------------------------------------------

  /** A second try at the same request after a lost connection. */
  predicate Repeats(a: Attempt, next: Request)
  {
    a.outcome == Err(ConnectionLost) && MethodIsRepeatable(a.request.method_) && next == a.request
  }

  /** The request the answer of `a` redirects to. */
  predicate Follows(a: Attempt, next: Request)
    requires a.request.url.port > 0
  {
    && a.outcome.Ok?
    && IsRedirectStatus(a.outcome.value.status)
    && RedirectLocation(a.outcome.value.headers) != ""
    && var url := ResolveRedirect(a.request.url, RedirectLocation(a.outcome.value.headers));
       url.Ok? && next == Redirected(a.request, a.outcome.value.status, url.value)
  }

  function Redirects(chain: seq<Attempt>): nat
  {
    if |chain| <= 1 then 0 else Redirects(chain[..|chain| - 1]) + if chain[|chain| - 2].outcome.Ok? then 1 else 0
  }

  /** What may come after the last attempt of a chain: its redirect, or its one repeat. */
  ghost predicate Continues(chain: seq<Attempt>, next: Request)
    requires chain != []
  {
    var last := chain[|chain| - 1];
    && last.request.url.port > 0
    && (|| Follows(last, next)
        || (Repeats(last, next) && (|chain| >= 2 ==> chain[|chain| - 2].outcome.Ok?)))
  }

  /** Attempts that belong together, from the caller's own request on. */
  ghost predicate Chain(first: Request, chain: seq<Attempt>)
  {
    if chain == [] then false
    else if |chain| == 1 then chain[0].request == first && first.url.port > 0
    else
      && Chain(first, chain[..|chain| - 1])
      && Continues(chain[..|chain| - 1], chain[|chain| - 1].request)
      && chain[|chain| - 1].request.url.port > 0
  }

  lemma ChainGrows(first: Request, chain: seq<Attempt>, next: Attempt)
    requires Chain(first, chain) && Continues(chain, next.request) && next.request.url.port > 0
    ensures Chain(first, chain + [next])
    ensures Redirects(chain + [next]) == Redirects(chain) + if chain[|chain| - 1].outcome.Ok? then 1 else 0
  {
    hide Continues;
    var longer := chain + [next];
    assert longer[..|longer| - 1] == chain;
  }

  lemma {:induction false} PrefixIsChain(first: Request, chain: seq<Attempt>, n: nat)
    requires Chain(first, chain) && 0 < n <= |chain|
    ensures Chain(first, chain[..n])
    decreases |chain|
  {
    hide Continues;
    if n < |chain| {
      PrefixIsChain(first, chain[..|chain| - 1], n);
      assert chain[..|chain| - 1][..n] == chain[..n];
    } else {
      assert chain[..n] == chain;
    }
  }

  lemma ChainStarts(first: Request, more: Attempt)
    requires more.request == first && first.url.port > 0
    ensures Chain(first, [more]) && Redirects([more]) == 0
  {
  }

  /** A request tried once, or twice after a lost connection, continues a chain. */
  lemma AttemptExtends(first: Request, chain: seq<Attempt>, more: seq<Attempt>, request: Request)
    requires request.url.port > 0
    requires 1 <= |more| <= 2 && forall a :: a in more ==> a.request == request
    requires |more| == 2 ==> more[0].outcome == Err(ConnectionLost) && MethodIsRepeatable(request.method_)
    requires chain == [] ==> request == first
    requires chain != [] ==>
               Chain(first, chain) && chain[|chain| - 1].outcome.Ok? && Continues(chain, request)
    ensures Chain(first, chain + more)
    ensures Redirects(chain + more) == if chain == [] then 0 else Redirects(chain) + 1
  {
    hide Follows, Chain, Redirects;
    var one := chain + [more[0]];
    assert more[0] in more;
    if chain == [] {
      assert one == [more[0]];
      ChainStarts(first, more[0]);
    } else {
      ChainGrows(first, chain, more[0]);
    }
    if |more| == 2 {
      assert more[1] in more;
      ChainGrows(first, one, more[1]);
      assert chain + more == one + [more[1]];
    } else {
      assert chain + more == one;
    }
  }

  lemma AnswerContinues(chain: seq<Attempt>, request: Request, response: Response, next: Request)
    requires chain != [] && chain[|chain| - 1] == Attempt(request, Ok(response)) && request.url.port > 0
    requires Follows(Attempt(request, Ok(response)), next)
    ensures Continues(chain, next)
  {
  }

  /** With at most `max` redirects there are at most two attempts for each of max + 1 requests. */
  lemma {:induction false} AttemptsAreBounded(first: Request, chain: seq<Attempt>)
    requires Chain(first, chain)
    ensures |chain| <= 2 * (Redirects(chain) + 1)
    ensures |chain| >= 2 && chain[|chain| - 2].outcome.Ok? ==> |chain| <= 2 * Redirects(chain) + 1
    ensures |chain| == 1 ==> Redirects(chain) == 0
    decreases |chain|
  {
    hide ResolveRedirect, RedirectLocation, MethodIsRepeatable, IsRedirectStatus;
    if |chain| >= 2 {
      AttemptsAreBounded(first, chain[..|chain| - 1]);
    }
  }

  lemma SameOriginJoins(a: ParsedUrl, b: ParsedUrl, c: ParsedUrl)
    requires SameOrigin(a, b)
    ensures SameOrigin(a, c) <==> SameOrigin(b, c)
  {
  }

  /** What one link of a chain does to headers and origin. */
  lemma LinkKeeps(chain: seq<Attempt>, next: Request)
    requires chain != [] && Continues(chain, next)
    ensures var last := chain[|chain| - 1].request;
            && next.headers == (if SameOrigin(last.url, next.url) then last.headers else WithoutCredentials(last.headers))
            && ((next.method_, next.body) == (last.method_, last.body) || (next.method_, next.body) == ("GET", ""))
  {
    hide WithoutCredentials, IsCredentialHeader, ResolveRedirect, RedirectLocation, MethodIsRepeatable;
  }

  lemma {:induction false} LastCredentialStaysHome(first: Request, chain: seq<Attempt>, h: Header)
    requires Chain(first, chain)
    requires h in chain[|chain| - 1].request.headers && IsCredentialHeader(h.0)
    ensures forall j :: 0 <= j < |chain| ==> SameOrigin(first.url, chain[j].request.url)
    decreases |chain|
  {
    hide IsCredentialHeader, Continues, SameOrigin;
    var n := |chain| - 1;
    SameOriginIsReflexive(first.url);
    if n > 0 {
      var front := chain[..n];
      LinkKeeps(front, chain[n].request);
      assert h in front[n - 1].request.headers && SameOrigin(front[n - 1].request.url, chain[n].request.url);
      LastCredentialStaysHome(first, front, h);
      assert forall j :: 0 <= j < n ==> front[j] == chain[j];
      SameOriginJoins(first.url, front[n - 1].request.url, chain[n].request.url);
    }
  }

  lemma SameOriginIsReflexive(a: ParsedUrl)
    ensures SameOrigin(a, a)
  {
  }

  /**
   A request that carries a credential header goes to the origin of the first one,
   and so did every request before it.
   */
  lemma CredentialsStayHome(first: Request, chain: seq<Attempt>, i: nat, h: Header)
    requires Chain(first, chain) && i < |chain|
    requires h in chain[i].request.headers && IsCredentialHeader(h.0)
    ensures forall j :: 0 <= j <= i ==> SameOrigin(first.url, chain[j].request.url)
  {
    hide Chain, SameOrigin, IsCredentialHeader;
    PrefixIsChain(first, chain, i + 1);
    LastCredentialStaysHome(first, chain[..i + 1], h);
    assert forall j :: 0 <= j <= i ==> chain[..i + 1][j] == chain[j];
  }

  /** Inside one origin nothing is taken from the headers. */
  lemma {:induction false} HeadersStayWhole(first: Request, chain: seq<Attempt>)
    requires Chain(first, chain)
    requires forall j :: 0 <= j < |chain| ==> SameOrigin(first.url, chain[j].request.url)
    ensures chain[|chain| - 1].request.headers == first.headers
    decreases |chain|
  {
    hide Continues, SameOrigin;
    var n := |chain| - 1;
    if n > 0 {
      var front := chain[..n];
      LinkKeeps(front, chain[n].request);
      assert forall j :: 0 <= j < n ==> front[j] == chain[j];
      HeadersStayWhole(first, front);
      SameOriginJoins(first.url, front[n - 1].request.url, chain[n].request.url);
    }
  }

  // --- the same in the fields of URLs and the names of headers ---

  /** Scheme, host and port agree, the host up to the case of its letters. */
  predicate SamePlace(a: ParsedUrl, b: ParsedUrl)
  {
    a.tls == b.tls && a.port == b.port && SameUpToCase(a.host, b.host)
  }

  /** A name that carries credentials, in any letter case. */
  predicate NamesCredentials(name: string)
  {
    SameUpToCase(name, "authorization") || SameUpToCase(name, "cookie") || SameUpToCase(name, "proxy-authorization")
  }

  lemma SameOriginIsSamePlace(a: ParsedUrl, b: ParsedUrl)
    ensures SameOrigin(a, b) <==> SamePlace(a, b)
  {
    LowerMeansSameUpToCase(a.host, b.host);
    assert EqualsIgnoreCase(a.host, b.host) <==> ToLower(a.host) == ToLower(b.host) by {
      if ToLower(a.host) == ToLower(b.host) {
        assert forall i :: 0 <= i < |a.host| ==> ToLower(a.host)[i] == ToLower(b.host)[i];
      }
    }
  }

  lemma CredentialHeadersAreNamed(name: string)
    ensures IsCredentialHeader(name) <==> NamesCredentials(name)
  {
    hide SameUpToCase, ToLower;
    LowerMeansSameUpToCase(name, "authorization");
    LowerMeansSameUpToCase(name, "cookie");
    LowerMeansSameUpToCase(name, "proxy-authorization");
    LowerKeepsLower("authorization");
    LowerKeepsLower("cookie");
    LowerKeepsLower("proxy-authorization");
  }

  /**
   In any chain, a request that carries an Authorization, Cookie or Proxy-Authorization
   header, in whatever letters, goes to the first one's scheme, port and host, and so did
   every request before it.
   */
  lemma CredentialsStayInPlace(first: Request, chain: seq<Attempt>, i: nat, h: Header)
    requires Chain(first, chain) && i < |chain|
    requires h in chain[i].request.headers && NamesCredentials(h.0)
    ensures forall j :: 0 <= j <= i ==> SamePlace(first.url, chain[j].request.url)
  {
    hide Chain, SameOrigin, SamePlace, IsCredentialHeader, NamesCredentials;
    CredentialHeadersAreNamed(h.0);
    CredentialsStayHome(first, chain, i, h);
    forall j | 0 <= j <= i ensures SamePlace(first.url, chain[j].request.url) {
      SameOriginIsSamePlace(first.url, chain[j].request.url);
    }
  }

  /** While the requests stay in that place no header is taken, credentials or not. */
  lemma HeadersStayInPlace(first: Request, chain: seq<Attempt>)
    requires Chain(first, chain)
    requires forall j :: 0 <= j < |chain| ==> SamePlace(first.url, chain[j].request.url)
    ensures chain[|chain| - 1].request.headers == first.headers
  {
    hide Chain, SameOrigin, SamePlace;
    forall j | 0 <= j < |chain| ensures SameOrigin(first.url, chain[j].request.url) {
      SameOriginIsSamePlace(first.url, chain[j].request.url);
    }
    HeadersStayWhole(first, chain);
  }

  /** The headers that are not named as credentials. */
  function Plain(headers: seq<Header>): seq<Header>
  {
    if headers == [] then []
    else (if NamesCredentials(headers[0].0) then [] else [headers[0]]) + Plain(headers[1..])
  }

  lemma {:induction false} WithoutCredentialsIsPlain(headers: seq<Header>)
    ensures WithoutCredentials(headers) == Plain(headers)
  {
    hide IsCredentialHeader, NamesCredentials;
    if headers != [] {
      CredentialHeadersAreNamed(headers[0].0);
      WithoutCredentialsIsPlain(headers[1..]);
    }
  }

  /** Every other header of the caller's is on every request, in the caller's order. */
  lemma PlainHeadersAlwaysGo(first: Request, chain: seq<Attempt>, a: Attempt)
    requires Chain(first, chain) && a in chain
    ensures Plain(a.request.headers) == Plain(first.headers)
  {
    hide Chain, WithoutCredentials, Plain;
    RequestsAreTheCallers(first, chain);
    WithoutCredentialsIsPlain(a.request.headers);
    WithoutCredentialsIsPlain(first.headers);
  }

  // --- what becomes of method and body ---

  /** Method and body of the request that answers with `statuses` lead to, starting from the caller's. */
  function AfterAnswers(m: string, body: string, statuses: seq<int>): (string, string)
    decreases |statuses|
  {
    if statuses == [] then (m, body)
    else if statuses[0] == 307 || statuses[0] == 308 then AfterAnswers(m, body, statuses[1..])
    else if statuses[0] != 303 && m in ["GET", "HEAD"] then AfterAnswers(m, body, statuses[1..])
    else AfterAnswers("GET", "", statuses[1..])
  }

  /** The statuses of the answers that came before the last attempt of a chain. */
  function Statuses(chain: seq<Attempt>): seq<int>
  {
    if |chain| <= 1 then []
    else
      var last := chain[|chain| - 2].outcome;
      Statuses(chain[..|chain| - 1]) + if last.Ok? then [last.value.status] else []
  }

  lemma {:induction false} AfterOneMore(m: string, body: string, statuses: seq<int>, status: int)
    ensures var (n, b) := AfterAnswers(m, body, statuses);
            AfterAnswers(m, body, statuses + [status]) == AfterAnswers(n, b, [status])
    decreases |statuses|
  {
    if statuses == [] {
      assert [] + [status] == [status];
    } else {
      assert (statuses + [status])[1..] == statuses[1..] + [status];
      if statuses[0] == 307 || statuses[0] == 308 || (statuses[0] != 303 && m in ["GET", "HEAD"]) {
        AfterOneMore(m, body, statuses[1..], status);
      } else {
        AfterOneMore("GET", "", statuses[1..], status);
      }
    }
  }

  lemma LinkAnswers(chain: seq<Attempt>, next: Request)
    requires chain != [] && Continues(chain, next)
    ensures var last := chain[|chain| - 1];
            if last.outcome.Ok? then
              && last.outcome.value.status in [301, 302, 303, 307, 308]
              && (next.method_, next.body) == AfterAnswers(last.request.method_, last.request.body, [last.outcome.value.status])
            else (next.method_, next.body) == (last.request.method_, last.request.body)
  {
    hide ResolveRedirect, RedirectLocation, WithoutCredentials, SameOrigin;
    var last := chain[|chain| - 1];
    if last.outcome.Ok? {
      var m, body, status := last.request.method_, last.request.body, last.outcome.value.status;
      assert [status][1..] == [];
      assert AfterAnswers(m, body, []) == (m, body) && AfterAnswers("GET", "", []) == ("GET", "");
    }
  }

  /**
   The method and body of every request follow from the caller's and the statuses answered
   so far: 307 and 308 keep them, 303 turns them into a bodiless GET, and 301 and 302 do
   so to everything but GET and HEAD. No other status leads anywhere.
   */
  lemma {:induction false} MethodsFollowTheAnswers(first: Request, chain: seq<Attempt>)
    requires Chain(first, chain)
    ensures var last := chain[|chain| - 1].request;
            (last.method_, last.body) == AfterAnswers(first.method_, first.body, Statuses(chain))
    ensures forall status <- Statuses(chain) :: status in [301, 302, 303, 307, 308]
    decreases |chain|
  {
    hide Continues, AfterAnswers;
    if |chain| > 1 {
      var front, last := chain[..|chain| - 1], chain[|chain| - 1];
      MethodsFollowTheAnswers(first, front);
      LinkAnswers(front, last.request);
      var before := front[|front| - 1];
      if before.outcome.Ok? {
        AfterOneMore(first.method_, first.body, Statuses(front), before.outcome.value.status);
      } else {
        assert Statuses(front) + [] == Statuses(front);
      }
    } else {
      NoAnswersYet(first.method_, first.body);
    }
  }

  lemma NoAnswersYet(m: string, body: string)
    ensures AfterAnswers(m, body, []) == (m, body)
  {
  }

  lemma {:induction false} WithoutTwiceIsOnce(headers: seq<Header>)
    ensures WithoutCredentials(WithoutCredentials(headers)) == WithoutCredentials(headers)
  {
    hide IsCredentialHeader;
    if headers != [] {
      WithoutTwiceIsOnce(headers[1..]);
      var kept := WithoutCredentials(headers[1..]);
      assert ([headers[0]] + kept)[1..] == kept;
    }
  }

  /**
   Whatever the servers answer, each request is the caller's own method and body or
   a GET without one, and carries every header of the caller's that is no credential.
   */
  lemma {:induction false} RequestsAreTheCallers(first: Request, chain: seq<Attempt>)
    requires Chain(first, chain)
    ensures forall a :: a in chain ==>
              && ((a.request.method_, a.request.body) == (first.method_, first.body)
                  || (a.request.method_, a.request.body) == ("GET", ""))
              && WithoutCredentials(a.request.headers) == WithoutCredentials(first.headers)
    decreases |chain|
  {
    hide WithoutCredentials, IsCredentialHeader, Continues, SameOrigin;
    var n := |chain| - 1;
    if n > 0 {
      var front := chain[..n];
      RequestsAreTheCallers(first, front);
      LinkKeeps(front, chain[n].request);
      WithoutTwiceIsOnce(front[n - 1].request.headers);
      assert front[n - 1] in front;
      assert forall a :: a in chain ==> a in front || a == chain[n];
    }
  }

  /** A request goes out twice only if it is safe, and only after a lost connection. */
  lemma OnlySafeRequestsRepeat(first: Request, chain: seq<Attempt>, i: nat)
    requires Chain(first, chain) && i + 1 < |chain|
    requires chain[i].outcome.Err?
    ensures chain[i].request.method_ in ["GET", "HEAD", "OPTIONS"]
    ensures chain[i].outcome.error == ConnectionLost
    ensures chain[i + 1].request == chain[i].request
    ensures i > 0 ==> chain[i - 1].outcome.Ok?
  {
    PrefixIsChain(first, chain, i + 2);
    var front := chain[..i + 2][..i + 1];
    assert front[i] == chain[i] && Continues(front, chain[i + 1].request);
  }

  // ---------------------------------------------------------------------------
  // The client
  // ---------------------------------------------------------------------------

  /** Why a chain ends where it does. */
  ghost predicate Ends(chain: seq<Attempt>, follow: bool, max: nat, result: Outcome)
    requires chain != [] && chain[|chain| - 1].request.url.port > 0
  {
    var last := chain[|chain| - 1];
    match last.outcome
    case Err(e) =>
      && result == Err(e)
      && (e == ConnectionLost && MethodIsRepeatable(last.request.method_) ==> |chain| >= 2 && chain[|chain| - 2].outcome.Err?)
    case Ok(response) =>
      var location := RedirectLocation(response.headers);
      if !IsRedirectStatus(response.status) || !follow || max == 0 || location == "" then result == Ok(response)
      else result == Err(ProtocolError) && (Redirects(chain) == max || ResolveRedirect(last.request.url, location).Err?)
  }

  /**
   A limit of zero, which is also what a negative one is taken for, follows nothing: every
   attempt is the caller's own request, and a redirect is handed back as the answer.
   */
  lemma ZeroLimitFollowsNothing(first: Request, chain: seq<Attempt>, follow: bool, result: Outcome)
    requires Chain(first, chain) && Redirects(chain) == 0 && chain[|chain| - 1].request.url.port > 0
    requires Ends(chain, follow, 0, result)
    ensures forall a :: a in chain ==> a.request == first
    ensures result == chain[|chain| - 1].outcome
  {
    hide Ends;
    NoRedirectsNoChange(first, chain);
    assert result == chain[|chain| - 1].outcome by {
      EndsWithoutFollowing(chain, follow, result);
    }
  }

  lemma EndsWithoutFollowing(chain: seq<Attempt>, follow: bool, result: Outcome)
    requires chain != [] && chain[|chain| - 1].request.url.port > 0 && Ends(chain, follow, 0, result)
    ensures result == chain[|chain| - 1].outcome
  {
    hide RedirectLocation, ResolveRedirect, IsRedirectStatus, MethodIsRepeatable;
  }

  lemma {:induction false} NoRedirectsNoChange(first: Request, chain: seq<Attempt>)
    requires Chain(first, chain) && Redirects(chain) == 0
    ensures forall a :: a in chain ==> a.request == first
    decreases |chain|
  {
    hide ResolveRedirect, RedirectLocation, MethodIsRepeatable, IsRedirectStatus, Redirected;
    if |chain| > 1 {
      var front, last := chain[..|chain| - 1], chain[|chain| - 1];
      NoRedirectsNoChange(first, front);
      assert front[|front| - 1] in front && front[|front| - 1].outcome.Err?;
      assert forall a :: a in chain ==> a in front || a == last;
    }
  }

  /** A safe request whose connection was lost is given up only after a second try. */
  lemma SafeRequestsAreTriedTwice(first: Request, chain: seq<Attempt>, follow: bool, max: nat)
    requires Chain(first, chain) && chain[|chain| - 1].request.url.port > 0
    requires Ends(chain, follow, max, Err(ConnectionLost)) && chain[|chain| - 1].outcome.Err?
    requires chain[|chain| - 1].request.method_ in ["GET", "HEAD", "OPTIONS"]
    ensures |chain| >= 2 && chain[|chain| - 2] == chain[|chain| - 1]
  {
    hide Redirected, ResolveRedirect, RedirectLocation;
    assert Continues(chain[..|chain| - 1], chain[|chain| - 1].request);
  }

  /** The value of the first header whose name differs from "Location" in letter case at most. */
  ghost predicate HasLocation(headers: seq<Header>, value: string)
  {
    exists i :: 0 <= i < |headers| && SameUpToCase(headers[i].0, "Location") && headers[i].1 == value
                && forall j :: 0 <= j < i ==> !SameUpToCase(headers[j].0, "Location")
  }

  lemma {:induction false} RedirectLocationIsTheFirst(headers: seq<Header>)
    ensures var value := RedirectLocation(headers);
            if exists h <- headers :: SameUpToCase(h.0, "Location") then HasLocation(headers, value) else value == ""
  {
    if headers != [] {
      var h := headers[0];
      LowerMeansSameUpToCase(h.0, "Location");
      assert EqualsIgnoreCase(h.0, "Location") <==> ToLower(h.0) == ToLower("Location") by {
        if ToLower(h.0) == ToLower("Location") {
          assert forall i :: 0 <= i < |h.0| ==> ToLower(h.0)[i] == ToLower("Location")[i];
        }
      }
      RedirectLocationIsTheFirst(headers[1..]);
      if !EqualsIgnoreCase(h.0, "Location") && HasLocation(headers[1..], RedirectLocation(headers[1..])) {
        var i :| 0 <= i < |headers[1..]| && SameUpToCase(headers[1..][i].0, "Location") && headers[1..][i].1 == RedirectLocation(headers[1..])
          && forall j :: 0 <= j < i ==> !SameUpToCase(headers[1..][j].0, "Location");
        assert headers[i + 1] == headers[1..][i];
        assert forall j :: 0 < j < i + 1 ==> headers[j] == headers[1..][j - 1];
      }
    }
  }

  /**
   An answer handed back while following is on, under a limit that is not zero, is one that
   redirects nowhere: its status is none of the five, or its first Location is empty or missing.
   */
  lemma AnswersHandedBackAreFinal(chain: seq<Attempt>, max: nat, response: Response, value: string)
    requires chain != [] && chain[|chain| - 1].request.url.port > 0
    requires Ends(chain, true, max, Ok(response)) && max > 0
    requires response.status in [301, 302, 303, 307, 308] && HasLocation(response.headers, value)
    ensures value == ""
  {
    hide ResolveRedirect;
    RedirectLocationIsTheFirst(response.headers);
    var i :| 0 <= i < |response.headers| && SameUpToCase(response.headers[i].0, "Location") && response.headers[i].1 == value
      && forall j :: 0 <= j < i ==> !SameUpToCase(response.headers[j].0, "Location");
    assert response.headers[i] in response.headers;
  }

  class SoftwareHttpClient {
    var requestBody: string
    var headers: seq<Header>
    var followRedirects: bool
    var maxRedirects: nat
    ghost var sent: seq<Attempt>

    constructor ()
      ensures followRedirects && maxRedirects == 5 && sent == [] && requestBody == "" && headers == []
    {
      requestBody, headers, followRedirects, maxRedirects, sent := "", [], true, 5, [];
    }

    method SetMaxRedirects(max: int)
      modifies this`maxRedirects
      ensures maxRedirects == if max < 0 then 0 else max
    {
      maxRedirects := if max < 0 then 0 else max;
    }

    /** One attempt. What the network and the server make of it is anything at all. */
    method ExecuteOnce(request: Request) returns (outcome: Outcome)
      modifies this`sent
      ensures sent == old(sent) + [Attempt(request, outcome)]
    {
      outcome := *;
      sent := sent + [Attempt(request, outcome)];
    }

    method ExecuteAttempt(request: Request) returns (outcome: Outcome)
      modifies this`sent
      ensures
        || sent == old(sent) + [Attempt(request, outcome)]
        || (sent == old(sent) + [Attempt(request, Err(ConnectionLost)), Attempt(request, outcome)] && MethodIsRepeatable(request.method_))
      ensures outcome == Err(ConnectionLost) && MethodIsRepeatable(request.method_) ==> |sent| == |old(sent)| + 2
    {
      var repeatable := MethodIsRepeatable(request.method_);
      outcome := ExecuteOnce(request);
      var attempt := 0;
      while !(outcome.Ok? || attempt > 0 || !repeatable || outcome.error != ConnectionLost)
        invariant 0 <= attempt <= 1
        invariant attempt == 0 ==> sent == old(sent) + [Attempt(request, outcome)]
        invariant attempt == 1 ==> sent == old(sent) + [Attempt(request, Err(ConnectionLost)), Attempt(request, outcome)] && repeatable
        decreases 1 - attempt
      {
        outcome := ExecuteOnce(request);
        attempt := attempt + 1;
      }
    }

    /** Applies one redirect to the request, or says there is none to follow. */
    method ApplyRedirect(response: Response, hop: nat, request: Request) returns (followed: Result<bool, NetworkError>, next: Request)
      requires request.url.port > 0
      ensures followed == Ok(true) ==>
                hop < maxRedirects && next.url.port > 0 && Follows(Attempt(request, Ok(response)), next)
      ensures followed == Ok(false) <==>
                !IsRedirectStatus(response.status) || !followRedirects || maxRedirects == 0 || RedirectLocation(response.headers) == ""
      ensures followed.Err? <==>
                followed != Ok(false) && (hop >= maxRedirects || ResolveRedirect(request.url, RedirectLocation(response.headers)).Err?)
      ensures followed.Err? ==> followed.error == ProtocolError
    {
      hide RedirectLocation, ResolveRedirect, IsRedirectStatus, WithoutCredentials, SameOrigin;
      next := request;
      if !IsRedirectStatus(response.status) {
        return Ok(false), next;
      }
      if !followRedirects || maxRedirects == 0 {
        return Ok(false), next;
      }
      var location := RedirectLocation(response.headers);
      if location == "" {
        return Ok(false), next;
      }
      if hop >= maxRedirects {
        return Err(ProtocolError), next;
      }
      var url := ResolveRedirect(request.url, location);
      if url.Err? {
        return Err(ProtocolError), next;
      }
      RedirectsAreWellFormed(request.url, location);
      if !SameOrigin(request.url, url.value) {
        next := next.(headers := WithoutCredentials(next.headers));
      }
      if response.status == 303 || ((response.status == 301 || response.status == 302) && request.method_ != "GET" && request.method_ != "HEAD") {
        next := next.(method_ := "GET", body := "");
      }
      next := next.(url := url.value);
      return Ok(true), next;
    }

    /** An attempt at the next request of a chain, and the chain with it. */
    method ContinueChain(ghost base: seq<Attempt>, ghost first: Request, ghost chain: seq<Attempt>, request: Request)
      returns (outcome: Outcome, ghost longer: seq<Attempt>)
      requires request.url.port > 0 && (chain == [] ==> request == first) && sent == base + chain
      requires chain != [] ==> Chain(first, chain) && chain[|chain| - 1].outcome.Ok? && Continues(chain, request)
      modifies this`sent
      ensures sent == base + longer
      ensures longer != [] && longer[|longer| - 1] == Attempt(request, outcome)
      ensures Chain(first, longer) && Redirects(longer) == if chain == [] then 0 else Redirects(chain) + 1
      ensures outcome == Err(ConnectionLost) && MethodIsRepeatable(request.method_) ==> |longer| >= 2 && longer[|longer| - 2].outcome.Err?
    {
      hide Chain, Continues, Follows, Redirects, MethodIsRepeatable;
      ghost var before := sent;
      outcome := ExecuteAttempt(request);
      ghost var more := sent[|before|..];
      AttemptExtends(first, chain, more, request);
      longer := chain + more;
      assert sent == base + (chain + more);
    }

    /** The rest of a call, once the URL is read. */
    method FollowChain(request0: Request) returns (result: Outcome, ghost chain: seq<Attempt>)
      requires request0.url.port > 0
      modifies this`sent
      ensures sent == old(sent) + chain
      ensures Chain(request0, chain) && chain != [] && chain[|chain| - 1].request.url.port > 0
      ensures Redirects(chain) <= maxRedirects && Ends(chain, followRedirects, maxRedirects, result)
    {
      hide Chain, Continues, Follows, Redirects, ResolveRedirect, RedirectLocation, IsRedirectStatus, MethodIsRepeatable, SameOrigin, WithoutCredentials;
      var request := request0;
      chain := [];
      var hop := 0;
      while true
        invariant 0 <= hop <= maxRedirects && request.url.port > 0
        invariant sent == old(sent) + chain
        invariant if hop == 0 then chain == [] && request == request0 else chain != []
        invariant hop > 0 ==> Chain(request0, chain) && Redirects(chain) == hop - 1
        invariant hop > 0 ==> chain[|chain| - 1].outcome.Ok? && Continues(chain, request)
        decreases maxRedirects - hop
      {
        result, chain := ContinueChain(old(sent), request0, chain, request);
        if result.Err? {
          return;
        }
        var followed, next := ApplyRedirect(result.value, hop, request);
        if followed.Err? {
          result := Err(followed.error);
          return;
        }
        if !followed.value {
          return;
        }
        AnswerContinues(chain, request, result.value, next);
        request := next;
        hop := hop + 1;
      }
    }

    method Execute(m: string, url: string) returns (result: Outcome)
      modifies this`sent
      ensures ParseUrl(url).None? ==> sent == old(sent) && result == Err(InvalidArgument)
      ensures ParseUrl(url).Some? ==>
                && |old(sent)| < |sent| && sent[..|old(sent)|] == old(sent)
                && var chain := sent[|old(sent)|..];
                   && Chain(Request(m, ParseUrl(url).value, requestBody, headers), chain)
                   && Redirects(chain) <= maxRedirects
                   && |chain| <= 2 * (maxRedirects + 1)
                   && Ends(chain, followRedirects, maxRedirects, result)
    {
      hide Chain, Redirects, ParseUrl, Ends;
      var parsed := ParseUrl(url);
      if parsed.None? {
        return Err(InvalidArgument);
      }
      ParsedIsWellFormed(url);
      var request := Request(m, parsed.value, requestBody, headers);
      ghost var chain;
      result, chain := FollowChain(request);
      AttemptsAreBounded(request, chain);
      assert sent[|old(sent)|..] == chain;
    }
  }
}
