/**
 * The client's authenticated fetch: the first available of three channels
 * (the browser wallet's `authFetch`, the wallet client's `authFetch`, or a
 * trust-based POST carrying the wallet address), and the article-content
 * request built on it. The network is the parameter `send`.
 */
module AuthFetch {
  import opened Wrappers
  import opened JsText

  /** The browser global: absent (no `window`), or present with the wallet's optional members. */
  datatype Browser =
    | NoWindow
    | Window(bsvAuthFetch: bool, bsvWalletAddress: Option<string>)

  /** A request body: the JSON object `{ walletAddress }`, or any other text. */
  datatype Body = WalletAddressJson(walletAddress: string) | Text(text: string)

  /** The `RequestInit` members the model follows; `others` are the remaining members, kept as they are. */
  datatype RequestInit = RequestInit(
    httpMethod: Option<string>, headers: Option<map<string, string>>, body: Option<Body>,
    others: map<string, string>)

  datatype Channel = WindowChannel | WalletChannel | TrustChannel

  /** The one request a call issues: the channel, the URL and the options handed to it. */
  datatype Request = Request(channel: Channel, url: string, init: Option<RequestInit>)

  /** The parsed JSON of a response: an error object, or an article. */
  datatype JsonBody =
    | ErrorBody(message: Option<string>, error: Option<string>)
    | ArticleBody(id: string, title: string, fullContent: string, txid: string, isPurchased: bool)

  /** A response: `ok`, the status, and the body as `response.json()` reads it (a failure carries the parse error's message). */
  datatype Reply = Reply(ok: bool, status: int, body: Result<JsonBody, string>)

  const NoFallbackMessage: string :=
    "BRC-104 authFetch not available and no walletAddress provided for fallback. "
    + "Please update your BSV Desktop wallet to support BRC-77/78."

  const JsonContentType: map<string, string> := map["Content-Type" := "application/json"]

  /** The address of the trust-based fallback: the argument if truthy, else the browser global's. */
  function FallbackAddress(browser: Browser, walletAddress: Option<string>): Option<string> {
    if Truthy(walletAddress) then walletAddress
    else if browser.Window? then browser.bsvWalletAddress
    else None
  }

  /**
   * The fallback options: the caller's members, with the method forced to
   * POST, the JSON content type as a default the caller's headers override,
   * and the body replaced by the address.
   */
  function FallbackInit(options: Option<RequestInit>, address: string): RequestInit {
    var callerHeaders := if options.Some? && options.value.headers.Some? then options.value.headers.value else map[];
    var others := if options.Some? then options.value.others else map[];
    RequestInit(Some("POST"), Some(JsonContentType + callerHeaders), Some(WalletAddressJson(address)), others)
  }

  /** The first-match channel choice of `authFetch`, or the error it throws before any request. */
  function Dispatch(
    browser: Browser, walletHasAuthFetch: bool, url: string, options: Option<RequestInit>,
    walletAddress: Option<string>): Result<Request, string>
  {
    if browser.Window? && browser.bsvAuthFetch then Success(Request(WindowChannel, url, options))
    else if walletHasAuthFetch then Success(Request(WalletChannel, url, options))
    else
      var address := FallbackAddress(browser, walletAddress);
      if !Truthy(address) then Failure(NoFallbackMessage)
      else Success(Request(TrustChannel, url, Some(FallbackInit(options, address.value))))
  }

  /** `authFetch`: at most one request is sent, and what it returns or throws is passed on. */
  function Fetch(
    browser: Browser, walletHasAuthFetch: bool, url: string, options: Option<RequestInit>,
    walletAddress: Option<string>, send: Request -> Outcome<Reply>): Outcome<Reply>
  {
    match Dispatch(browser, walletHasAuthFetch, url, options, walletAddress)
    case Failure(m) => Threw(ErrorObject(m))
    case Success(request) => send(request)
  }

  /** The browser wallet's `authFetch` wins over everything else, with the caller's options untouched. */
  lemma WindowChannelFirst(
    browser: Browser, walletHasAuthFetch: bool, url: string, options: Option<RequestInit>, walletAddress: Option<string>)
    requires browser.Window? && browser.bsvAuthFetch
    ensures Dispatch(browser, walletHasAuthFetch, url, options, walletAddress) == Success(Request(WindowChannel, url, options))
  {
  }

  /** Without it, the wallet client's `authFetch` is next. */
  lemma WalletChannelSecond(
    browser: Browser, url: string, options: Option<RequestInit>, walletAddress: Option<string>)
    requires !(browser.Window? && browser.bsvAuthFetch)
    ensures Dispatch(browser, true, url, options, walletAddress) == Success(Request(WalletChannel, url, options))
  {
  }

  /**
   * With neither, the trust-based POST is used exactly when an address is
   * found (the argument first, then the global); otherwise the call throws
   * without sending anything.
   */
  lemma TrustFallback(
    browser: Browser, url: string, options: Option<RequestInit>, walletAddress: Option<string>,
    send: Request -> Outcome<Reply>)
    requires !(browser.Window? && browser.bsvAuthFetch)
    ensures var d := Dispatch(browser, false, url, options, walletAddress);
      && (d.Success? <==> Truthy(walletAddress) || (browser.Window? && Truthy(browser.bsvWalletAddress)))
      && (d.Success? ==> d.value.channel == TrustChannel && d.value.url == url)
      && (Truthy(walletAddress) && d.Success? ==> d.value.init.value.body == Some(WalletAddressJson(walletAddress.value)))
      && (d.Failure? ==> Fetch(browser, false, url, options, walletAddress, send) == Threw(ErrorObject(NoFallbackMessage)))
  {
  }

  /**
   * The fallback request is always a POST whose body is the address, whatever
   * the caller asked for; the caller's headers and other members are kept, and
   * the JSON content type stands unless the caller set one.
   */
  lemma FallbackRequestShape(options: Option<RequestInit>, address: string)
    ensures var init := FallbackInit(options, address);
      && init.httpMethod == Some("POST")
      && init.body == Some(WalletAddressJson(address))
      && init.headers.Some? && "Content-Type" in init.headers.value
      && (options.Some? ==> init.others == options.value.others)
      && (options.Some? && options.value.headers.Some? ==>
            forall h :: h in options.value.headers.value ==> init.headers.value[h] == options.value.headers.value[h])
      && (options.None? || options.value.headers.None? || "Content-Type" !in options.value.headers.value ==>
            init.headers.value["Content-Type"] == "application/json")
      && forall h :: h in init.headers.value ==> h == "Content-Type" || (options.Some? && options.value.headers.Some? && h in options.value.headers.value)
  {
  }

  // ---------------------------------------------------------------------
  // `fetchAuthenticatedArticle`

  const DefaultApiUrl: string := "http://localhost:3001"

  /** `import.meta.env.VITE_API_URL || "http://localhost:3001"`. */
  function ApiUrl(viteApiUrl: Option<string>): string {
    if Truthy(viteApiUrl) then viteApiUrl.value else DefaultApiUrl
  }

  /** The content endpoint of an article. */
  function ContentUrl(viteApiUrl: Option<string>, articleId: string): string {
    ApiUrl(viteApiUrl) + "/api/protected/articles/" + articleId + "/content"
  }

  const GetInit: RequestInit := RequestInit(Some("GET"), None, None, map[])

  /** The message thrown for a non-OK response: `message`, else `error`, else a fixed text. */
  function RejectionMessage(body: JsonBody): string {
    match body
    case ErrorBody(message, error) =>
      if Truthy(message) then message.value
      else if Truthy(error) then error.value
      else "Authentication failed"
    case ArticleBody(_, _, _, _, _) => "Authentication failed"
  }

  /** `fetchAuthenticatedArticle`: a GET through `authFetch` (without an address), then the body or an error. */
  function FetchAuthenticatedArticle(
    browser: Browser, walletHasAuthFetch: bool, viteApiUrl: Option<string>, articleId: string,
    send: Request -> Outcome<Reply>): Outcome<JsonBody>
  {
    match Fetch(browser, walletHasAuthFetch, ContentUrl(viteApiUrl, articleId), Some(GetInit), None, send)
    case Threw(t) => Threw(t)
    case Returned(reply) =>
      match reply.body
      case Failure(m) => Threw(ErrorObject(m))
      case Success(body) =>
        if !reply.ok then Threw(ErrorObject(RejectionMessage(body)))
        else Returned(body)
  }

  /**
   * The request goes to `{api}/api/protected/articles/{id}/content` as a GET
   * on an authenticated channel, or as the fallback POST when only the
   * browser global holds an address; a non-OK reply throws its `message`,
   * else its `error`, else "Authentication failed"; an OK reply's body is
   * returned as it is; a body that does not parse throws the parse error;
   * a transport failure is rethrown unchanged.
   */
  lemma FetchArticleOutcome(
    browser: Browser, walletHasAuthFetch: bool, viteApiUrl: Option<string>, articleId: string,
    send: Request -> Outcome<Reply>)
    ensures var d := Dispatch(browser, walletHasAuthFetch, ContentUrl(viteApiUrl, articleId), Some(GetInit), None);
      var r := FetchAuthenticatedArticle(browser, walletHasAuthFetch, viteApiUrl, articleId, send);
      && (d.Success? ==> d.value.url == ContentUrl(viteApiUrl, articleId))
      && (d.Success? && d.value.channel != TrustChannel ==> d.value.init == Some(GetInit))
      && (d.Success? && d.value.channel == TrustChannel ==>
            browser.Window? && d.value.init.value.body == Some(WalletAddressJson(browser.bsvWalletAddress.value)))
      && (d.Failure? ==> r == Threw(ErrorObject(NoFallbackMessage)))
      && (d.Success? && send(d.value).Threw? ==> r == Threw(send(d.value).thrown))
      && (d.Success? && send(d.value).Returned? && send(d.value).value.body.Failure? ==>
            r == Threw(ErrorObject(send(d.value).value.body.error)))
      && (d.Success? && send(d.value).Returned? && send(d.value).value.body.Success? ==>
            var reply := send(d.value).value;
            if reply.ok then r == Returned(reply.body.value)
            else r == Threw(ErrorObject(RejectionMessage(reply.body.value))))
  {
  }

  /** The rejection message prefers `message`, then `error`, and falls back to "Authentication failed". */
  lemma RejectionMessagePriority(message: Option<string>, error: Option<string>)
    ensures Truthy(message) ==> RejectionMessage(ErrorBody(message, error)) == message.value
    ensures !Truthy(message) && Truthy(error) ==> RejectionMessage(ErrorBody(message, error)) == error.value
    ensures !Truthy(message) && !Truthy(error) ==> RejectionMessage(ErrorBody(message, error)) == "Authentication failed"
  {
  }
}
