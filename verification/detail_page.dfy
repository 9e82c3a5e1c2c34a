/**
 * The article page: the effect that loads an article's full content through
 * the authenticated fetch and decides between showing it, showing an error
 * and going back to the home page, and what the page then displays.
 */
module DetailPage {
  import opened Wrappers
  import opened JsText
  import opened AuthFetch
  import Markdown

  /** The page's `wallet` prop when it is present: whether the client exposes `authFetch`. */
  datatype PageWallet = PageWallet(hasAuthFetch: bool)

  /** The environment of one run of the effect: the browser global, the API base URL and the network. */
  datatype Env = Env(browser: Browser, viteApiUrl: Option<string>, send: Request -> Outcome<Reply>)

  /** How one run of the loading effect ends. */
  datatype Ending =
    | ErrorShown(message: string)
    | WentHome
    | Loaded(article: JsonBody)

  const MissingIdMessage: string := "Article ID not found"
  const NotFoundMessage: string := "Article not found"
  const LoadFailedMessage: string := "Failed to load article"

  /** The page may ask for the content only when connected, with a truthy counterparty and a wallet. */
  predicate MayFetch(connected: bool, counterparty: Option<string>, wallet: Option<PageWallet>) {
    connected && Truthy(counterparty) && wallet.Some?
  }

  /** How the awaited content request ends, once it has been sent (or refused by `authFetch`). */
  function AfterFetch(outcome: Outcome<Reply>): Ending {
    match outcome
    case Threw(t) => ErrorShown(ErrorText(t, LoadFailedMessage))
    case Returned(reply) =>
      if !reply.ok then
        if reply.status == 403 then WentHome else ErrorShown(NotFoundMessage)
      else
        match reply.body
        case Failure(m) => ErrorShown(m)
        case Success(b) => Loaded(b)
  }

  /** `fetchArticle`: the id check, the connection check, then one GET through `authFetch` with the counterparty as fallback address. */
  function Load(
    id: Option<string>, connected: bool, counterparty: Option<string>, wallet: Option<PageWallet>, env: Env): Ending
  {
    if !Truthy(id) then ErrorShown(MissingIdMessage)
    else if !MayFetch(connected, counterparty, wallet) then WentHome
    else
      AfterFetch(Fetch(env.browser, wallet.value.hasAuthFetch, ContentUrl(env.viteApiUrl, id.value),
        Some(GetInit), counterparty, env.send))
  }

  /** The request the effect hands to `authFetch`'s dispatch, when it gets that far. */
  function ContentRequest(
    id: Option<string>, connected: bool, counterparty: Option<string>, wallet: Option<PageWallet>, env: Env)
    : Option<Result<Request, string>>
  {
    if !Truthy(id) || !MayFetch(connected, counterparty, wallet) then None
    else Some(Dispatch(env.browser, wallet.value.hasAuthFetch, ContentUrl(env.viteApiUrl, id.value), Some(GetInit), counterparty))
  }

  /**
   * Without an id the page shows an error; with one but without a connection,
   * a counterparty or a wallet it goes home; in both cases nothing is sent,
   * so the network cannot change the ending.
   */
  lemma LoadGuards(
    id: Option<string>, connected: bool, counterparty: Option<string>, wallet: Option<PageWallet>, env: Env,
    other: Request -> Outcome<Reply>)
    requires !Truthy(id) || !MayFetch(connected, counterparty, wallet)
    ensures ContentRequest(id, connected, counterparty, wallet, env).None?
    ensures Load(id, connected, counterparty, wallet, env) ==
      if !Truthy(id) then ErrorShown(MissingIdMessage) else WentHome
    ensures Load(id, connected, counterparty, wallet, env) ==
      Load(id, connected, counterparty, wallet, env.(send := other))
  {
  }

  /**
   * Once the guards pass, a request is always sent: a truthy counterparty
   * gives the trust-based fallback its address, so `authFetch` never refuses.
   * The request goes to the article's content URL, as a GET on an
   * authenticated channel or as the fallback POST carrying the counterparty.
   */
  lemma RequestAlwaysSent(
    id: Option<string>, connected: bool, counterparty: Option<string>, wallet: Option<PageWallet>, env: Env)
    requires Truthy(id) && MayFetch(connected, counterparty, wallet)
    ensures var q := ContentRequest(id, connected, counterparty, wallet, env);
      && q.Some? && q.value.Success?
      && q.value.value.url == ContentUrl(env.viteApiUrl, id.value)
      && (q.value.value.channel != TrustChannel ==> q.value.value.init == Some(GetInit))
      && (q.value.value.channel == TrustChannel ==>
            q.value.value.init.value.body == Some(WalletAddressJson(counterparty.value))
            && q.value.value.init.value.httpMethod == Some("POST"))
      && Load(id, connected, counterparty, wallet, env) == AfterFetch(env.send(q.value.value))
  {
  }

  /**
   * The navigation rule: a run goes home exactly when there is an id and
   * either the guards fail or the content request answers non-OK with 403;
   * any other non-OK answer shows "Article not found".
   */
  lemma NavigationRule(
    id: Option<string>, connected: bool, counterparty: Option<string>, wallet: Option<PageWallet>, env: Env)
    ensures var q := ContentRequest(id, connected, counterparty, wallet, env);
      var reply := if q.Some? && q.value.Success? then env.send(q.value.value) else Threw(OtherValue);
      && (Load(id, connected, counterparty, wallet, env).WentHome? <==>
            Truthy(id) && (!MayFetch(connected, counterparty, wallet)
              || (reply.Returned? && !reply.value.ok && reply.value.status == 403)))
      && (q.Some? && reply.Returned? && !reply.value.ok && reply.value.status != 403 ==>
            Load(id, connected, counterparty, wallet, env) == ErrorShown(NotFoundMessage))
  {
    if Truthy(id) && MayFetch(connected, counterparty, wallet) {
      RequestAlwaysSent(id, connected, counterparty, wallet, env);
    }
  }

  /**
   * An OK answer shows its parsed body; a body that does not parse, or a
   * request that throws, shows the thrown error's message, or
   * "Failed to load article" for a thrown value that is not an `Error`.
   */
  lemma AfterFetchOutcomes(outcome: Outcome<Reply>)
    ensures outcome.Returned? && outcome.value.ok && outcome.value.body.Success? ==>
      AfterFetch(outcome) == Loaded(outcome.value.body.value)
    ensures outcome.Returned? && outcome.value.ok && outcome.value.body.Failure? ==>
      AfterFetch(outcome) == ErrorShown(outcome.value.body.error)
    ensures outcome == Threw(OtherValue) ==> AfterFetch(outcome) == ErrorShown(LoadFailedMessage)
    ensures outcome.Threw? && outcome.thrown.ErrorObject? ==> AfterFetch(outcome) == ErrorShown(outcome.thrown.message)
    ensures AfterFetch(outcome).Loaded? <==> outcome.Returned? && outcome.value.ok && outcome.value.body.Success?
  {
  }

  // ---------------------------------------------------------------------
  // What the page shows

  /** The three screens: the loading notice, the error screen with its text, or the article with its rendered body. */
  datatype View = LoadingView | ErrorView(text: string) | ArticleView(title: string, html: string)

  /** `article.fullContent || ''`; a stored error object has no `fullContent`. */
  function ContentOf(article: JsonBody): string {
    match article
    case ArticleBody(_, _, fullContent, _, _) => fullContent
    case ErrorBody(_, _) => ""
  }

  function TitleOf(article: JsonBody): string {
    match article
    case ArticleBody(_, title, _, _, _) => title
    case ErrorBody(_, _) => ""
  }

  /** The render: loading first, then the error (or "Article not found" when there is no article), else the article. */
  function Render(loading: bool, error: Option<string>, article: Option<JsonBody>): (v: View)
    ensures v.LoadingView? <==> loading
    ensures v.ArticleView? <==> !loading && !Truthy(error) && article.Some?
    ensures v.ErrorView? && Truthy(error) ==> v.text == error.value
    ensures v.ErrorView? && !Truthy(error) ==> v.text == NotFoundMessage
  {
    if loading then LoadingView
    else if Truthy(error) || article.None? then ErrorView(if Truthy(error) then error.value else NotFoundMessage)
    else ArticleView(TitleOf(article.value), Markdown.RenderMarkdown(ContentOf(article.value)))
  }

  /** An article whose content is plain single-line text is shown as one paragraph of that text. */
  lemma RenderPlainArticle(id: string, title: string, text: string, txid: string, isPurchased: bool)
    requires Markdown.PlainLine(text)
    ensures Render(false, None, Some(ArticleBody(id, title, text, txid, isPurchased))) ==
      ArticleView(title, "<p>" + text + "</p>")
  {
    var a := ArticleBody(id, title, text, txid, isPurchased);
    assert ContentOf(a) == text && TitleOf(a) == title;
    assert Markdown.RenderMarkdown(text) == "<p>" + text + "</p>" by {
      Markdown.PlainLineParagraph(text);
    }
  }

  // ---------------------------------------------------------------------
  // The page state

  /** The page's state variables: the loaded article, the loading flag and the error. */
  class DetailState {
    var article: Option<JsonBody>
    var loading: bool
    var error: Option<string>

    /** The state on mount: loading, nothing loaded, no error. */
    constructor ()
      ensures article.None? && loading && error.None?
    {
      article := None;
      loading := true;
      error := None;
    }

    /**
     * One run of the effect over the page state. Whatever happens, loading
     * ends; the ending decides which of the error, the article or the
     * navigation changes, and nothing else does.
     */
    method FetchArticle(
      id: Option<string>, connected: bool, counterparty: Option<string>, wallet: Option<PageWallet>, env: Env)
      returns (navigateHome: bool)
      modifies this
      ensures !loading
      ensures match Load(id, connected, counterparty, wallet, env)
        case ErrorShown(m) => error == Some(m) && article == old(article) && !navigateHome
        case WentHome => error == old(error) && article == old(article) && navigateHome
        case Loaded(b) => article == Some(b) && error == old(error) && !navigateHome
    {
      navigateHome := false;
      if !Truthy(id) {
        error := Some(MissingIdMessage);
        loading := false;
        return;
      }
      if !connected || !Truthy(counterparty) || wallet.None? {
        navigateHome := true;
        loading := false;
        return;
      }
      var url := ContentUrl(env.viteApiUrl, id.value);
      var res := Fetch(env.browser, wallet.value.hasAuthFetch, url, Some(GetInit), counterparty, env.send);
      match res {
        case Threw(t) =>
          error := Some(ErrorText(t, LoadFailedMessage));
        case Returned(reply) =>
          if !reply.ok {
            if reply.status == 403 {
              navigateHome := true;
            } else {
              error := Some(NotFoundMessage);
            }
          } else {
            match reply.body {
              case Failure(m) => error := Some(m);
              case Success(b) => article := Some(b);
            }
          }
      }
      loading := false;
    }
  }

  // ---------------------------------------------------------------------
  // How the application shell mounts the page

  /**
   * The route as written: the shell hands the page `wallet`,
   * `isWalletConnected` and `walletAddress`, but the page reads a
   * `counterparty` prop, which is therefore undefined.
   */
  function RouteAsWritten(
    id: Option<string>, connected: bool, walletAddress: string, wallet: Option<PageWallet>, env: Env): Ending
  {
    Load(id, connected, None, wallet, env)
  }

  /** As written, every visit to an article page with an id goes straight back home, without a request. */
  lemma RouteAsWrittenAlwaysHome(
    id: Option<string>, connected: bool, walletAddress: string, wallet: Option<PageWallet>, env: Env)
    requires Truthy(id)
    ensures RouteAsWritten(id, connected, walletAddress, wallet, env) == WentHome
    ensures ContentRequest(id, connected, None, wallet, env).None?
  {
  }

  /** The evidently intended route: the page's counterparty is the connected wallet's address. */
  function Route(
    id: Option<string>, connected: bool, walletAddress: string, wallet: Option<PageWallet>, env: Env): Ending
  {
    Load(id, connected, Some(walletAddress), wallet, env)
  }

  /**
   * With the address passed on, a connected visitor with a wallet and an
   * address gets the content request; the article is shown exactly when the
   * answer is OK and parses, and a 403 (not purchased) goes home.
   */
  lemma RouteShowsPurchasedArticle(
    id: string, walletAddress: string, hasAuthFetch: bool, env: Env)
    requires id != "" && walletAddress != ""
    ensures var q := ContentRequest(Some(id), true, Some(walletAddress), Some(PageWallet(hasAuthFetch)), env);
      var outcome := env.send(q.value.value);
      var r := Route(Some(id), true, walletAddress, Some(PageWallet(hasAuthFetch)), env);
      && q.Some? && q.value.Success?
      && (r.Loaded? <==> outcome.Returned? && outcome.value.ok && outcome.value.body.Success?)
      && (r.Loaded? ==> r.article == outcome.value.body.value)
      && (outcome.Returned? && !outcome.value.ok && outcome.value.status == 403 ==> r == WentHome)
  {
    RequestAlwaysSent(Some(id), true, Some(walletAddress), Some(PageWallet(hasAuthFetch)), env);
    AfterFetchOutcomes(env.send(ContentRequest(Some(id), true, Some(walletAddress), Some(PageWallet(hasAuthFetch)), env).value.value));
  }
}
