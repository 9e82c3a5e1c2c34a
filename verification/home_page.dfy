/**
 * The home page: the hexadecimal encoding of strings, the OP_RETURN metadata
 * script, the two-output transaction request, the list transforms that mark
 * articles purchased, and the unlock and click handlers over the page state.
 * The wallet's `createAction`, the locking-script builder and the backend's
 * answer to the verification request are parameters.
 */
module HomePage {
  import opened Wrappers
  import opened JsText
  import opened Schema
  import ProtectedRoutes
  import opened Lookup

  /** An article as the client holds it. */
  datatype FrontArticle = FrontArticle(
    id: string, title: string, author: string, authorPaymentAddress: string,
    subject: string, wordCount: int, price: nat, preview: string, fullContent: string,
    isPurchased: bool, txid: Option<string>)

  // ---------------------------------------------------------------------
  // `stringToHex`

  /** The UTF-16 code units of one character, as `charCodeAt` reports them. */
  function CharUnits(c: char): (u: seq<nat>)
    ensures 1 <= |u| <= 2 && forall k :: 0 <= k < |u| ==> u[k] < 0x10000
    ensures (c as int) < 0x10000 ==> u == [c as int]
  {
    if (c as int) < 0x10000 then [c as int]
    else
      var v := (c as int) - 0x10000;
      [0xD800 + v / 0x400, 0xDC00 + v % 0x400]
  }

  /** The UTF-16 code units of a string; `str.length` is their number. */
  function Utf16Units(s: string): (u: seq<nat>)
    ensures |u| >= |s|
    ensures forall k :: 0 <= k < |u| ==> u[k] < 0x10000
  {
    if s == [] then [] else CharUnits(s[0]) + Utf16Units(s[1..])
  }

  /** A string of characters below 256 has one code unit per character, equal to its code. */
  lemma {:induction false} Utf16Latin1(s: string)
    requires forall k :: 0 <= k < |s| ==> (s[k] as int) < 256
    ensures |Utf16Units(s)| == |s|
    ensures forall k :: 0 <= k < |s| ==> Utf16Units(s)[k] == s[k] as int
  {
    if s != [] {
      Utf16Latin1(s[1..]);
    }
  }

  /** `code.toString(16).padStart(2, "0")`. */
  function UnitHex(u: nat): string {
    PadStart(NumberToString(u, 16), 2, '0')
  }

  /** The hexadecimal form of a sequence of code units, two or more digits each. */
  function HexOfUnits(u: seq<nat>): string {
    if u == [] then "" else HexOfUnits(u[..|u| - 1]) + UnitHex(u[|u| - 1])
  }

  /** The specification of `stringToHex`. */
  function Hex(s: string): string {
    HexOfUnits(Utf16Units(s))
  }

  /** `stringToHex`: appends the padded hexadecimal form of every code unit. */
  method StringToHex(str: string) returns (hex: string)
    ensures hex == Hex(str)
  {
    var units := Utf16Units(str);
    hex := "";
    for i := 0 to |units|
      invariant hex == HexOfUnits(units[..i])
    {
      HexOfUnitsPrefix(units, i);
      hex := hex + UnitHex(units[i]);
    }
    assert units[..|units|] == units;
  }

  /** The hex form of one more code unit extends the hex form of the ones before it. */
  lemma HexOfUnitsPrefix(units: seq<nat>, i: nat)
    requires i < |units|
    ensures HexOfUnits(units[..i + 1]) == HexOfUnits(units[..i]) + UnitHex(units[i])
  {
    assert units[..i + 1][..i] == units[..i];
  }

  /** A code unit below 256 takes exactly two lower-case hex digits, which read back as the unit. */
  lemma UnitHexByte(u: nat)
    requires u < 256
    ensures |UnitHex(u)| == 2
    ensures forall k :: 0 <= k < 2 ==> IsDigitIn(UnitHex(u)[k], 16)
    ensures ParseDigits(UnitHex(u), 16) == u
  {
    HexShort(u);
    NumberToStringDigits(u, 16);
    ParseNumberToString(u, 16);
    var d := NumberToString(u, 16);
    if |d| == 1 {
      assert UnitHex(u) == ['0'] + d;
      ParseSnoc(['0'], d[0], 16);
      ParseSnoc([], '0', 16);
      assert ['0'] == [] + ['0'];
      assert d == [] + [d[0]];
      ParseSnoc([], d[0], 16);
    }
  }

  /** The code units a string of hex pairs stands for. */
  function DecodeHexPairs(h: string): seq<nat> {
    if |h| < 2 then [] else DecodeHexPairs(h[..|h| - 2]) + [ParseDigits(h[|h| - 2..], 16)]
  }

  lemma DecodeHexPairsSnoc(h: string, y: string)
    requires |y| == 2
    ensures DecodeHexPairs(h + y) == DecodeHexPairs(h) + [ParseDigits(y, 16)]
  {
    assert (h + y)[..|h + y| - 2] == h;
    assert (h + y)[|h + y| - 2..] == y;
  }

  /** For code units below 256 the hex form is twice as long and decodes back to the units. */
  lemma {:induction false} HexOfBytes(u: seq<nat>)
    requires forall k :: 0 <= k < |u| ==> u[k] < 256
    ensures |HexOfUnits(u)| == 2 * |u|
    ensures DecodeHexPairs(HexOfUnits(u)) == u
  {
    if u != [] {
      var p, x := u[..|u| - 1], u[|u| - 1];
      assert u == p + [x];
      HexOfBytes(p);
      HexOfBytesSnoc(p, x);
    }
  }

  /** The step: one more code unit adds one pair that reads back as that unit. */
  lemma HexOfBytesSnoc(p: seq<nat>, x: nat)
    requires x < 256
    requires |HexOfUnits(p)| == 2 * |p| && DecodeHexPairs(HexOfUnits(p)) == p
    ensures |HexOfUnits(p + [x])| == 2 * |p + [x]|
    ensures DecodeHexPairs(HexOfUnits(p + [x])) == p + [x]
  {
    var h, y := HexOfUnits(p), UnitHex(x);
    assert (p + [x])[..|p|] == p;
    assert HexOfUnits(p + [x]) == h + y;
    UnitHexByte(x);
    DecodeHexPairsSnoc(h, y);
  }

  /** For a string of characters below 256 the hex form has twice its length and decodes to its codes. */
  lemma HexOfLatin1(s: string)
    requires forall k :: 0 <= k < |s| ==> (s[k] as int) < 256
    ensures |Hex(s)| == 2 * |s|
    ensures DecodeHexPairs(Hex(s)) == Utf16Units(s)
  {
    Utf16Latin1(s);
    HexOfBytes(Utf16Units(s));
  }

  // ---------------------------------------------------------------------
  // The OP_RETURN metadata script and the transaction request

  const Protocol: string := "article-" + "unlock"

  /** The two-digit hex length field written before the title and the price: it counts hex characters. */
  function LengthField(hex: string): string {
    PadStart(NumberToString(|hex|, 16), 2, '0')
  }

  /** OP_FALSE OP_RETURN, then the protocol tag, the article id, the title and the price, each as hex. */
  function OpReturnScript(articleId: string, title: string, price: nat): string {
    var titleHex := Hex(title);
    var priceHex := Hex(NumberToString(price, 10));
    "006a04" + Hex(Protocol) + "02" + Hex(articleId)
      + LengthField(titleHex) + titleHex + LengthField(priceHex) + priceHex
  }

  /**
   * The protocol tag "article-unlock" takes 28 hex characters (14 bytes) after
   * the byte `04`, and the field before a title of fewer than 128 Latin-1
   * characters is two hex digits holding the title's length in hex
   * characters, twice its length in bytes.
   */
  lemma OpReturnFields(title: string)
    requires forall k :: 0 <= k < |title| ==> (title[k] as int) < 256
    requires |title| < 128
    ensures |Hex(Protocol)| == 28
    ensures |LengthField(Hex(title))| == 2
    ensures ParseDigits(LengthField(Hex(title)), 16) == |Hex(title)| == 2 * |title|
  {
    assert forall k :: 0 <= k < |Protocol| ==> (Protocol[k] as int) < 256;
    HexOfLatin1(Protocol);
    HexOfLatin1(title);
    UnitHexByte(2 * |title|);
  }

  /** The script as the handler assembles it, from four `stringToHex` calls. */
  method BuildOpReturnScript(articleId: string, title: string, price: nat) returns (script: string)
    ensures script == OpReturnScript(articleId, title, price)
  {
    var protocol := StringToHex(Protocol);
    var articleIdHex := StringToHex(articleId);
    var titleHex := StringToHex(title);
    var priceHex := StringToHex(NumberToString(price, 10));
    script := "006a04" + protocol + "02" + articleIdHex
      + LengthField(titleHex) + titleHex + LengthField(priceHex) + priceHex;
  }

  /** One output of the transaction request. */
  datatype ActionOutput = ActionOutput(lockingScript: string, satoshis: int, outputDescription: string)

  datatype ActionRequest = ActionRequest(description: string, outputs: seq<ActionOutput>)

  /** The request handed to the wallet's `createAction`. */
  function ActionRequestFor(a: FrontArticle, paymentScript: string): (r: ActionRequest)
    ensures |r.outputs| == 2
    ensures r.outputs[0].lockingScript == paymentScript && r.outputs[0].satoshis == a.price
    ensures r.outputs[1].satoshis == 0
    ensures r.outputs[1].lockingScript == OpReturnScript(a.id, a.title, a.price)
  {
    ActionRequest(
      "Unlock article: " + a.title,
      [ ActionOutput(paymentScript, a.price, "Article payment to " + a.author),
        ActionOutput(OpReturnScript(a.id, a.title, a.price), 0, "Article unlock metadata for \"" + a.title + "\"")])
  }

  // ---------------------------------------------------------------------
  // Purchase-marking list transforms

  /** `articles.find(a => a.id === id)`. */
  function FindFront(arts: seq<FrontArticle>, id: string): (r: Option<FrontArticle>)
    ensures r.Some? ==> r.value in arts && r.value.id == id
    ensures r.None? <==> forall i :: 0 <= i < |arts| ==> arts[i].id != id
  {
    Find(arts, (a: FrontArticle) => a.id == id)
  }

  /** The article marked as bought with `txid`. */
  function Marked(a: FrontArticle, txid: string): FrontArticle {
    a.(isPurchased := true, txid := Some(txid))
  }

  /** After a payment: every article with that id is marked; the rest, the length and the order stay. */
  function MarkPurchased(arts: seq<FrontArticle>, id: string, txid: string): (r: seq<FrontArticle>)
    ensures |r| == |arts|
    ensures forall i :: 0 <= i < |r| && arts[i].id == id ==> r[i] == Marked(arts[i], txid)
    ensures forall i :: 0 <= i < |r| && arts[i].id != id ==> r[i] == arts[i]
  {
    seq(|arts|, i requires 0 <= i < |arts| => if arts[i].id == id then Marked(arts[i], txid) else arts[i])
  }

  /** `purchases[k]` is the first purchase of article `id`. */
  predicate FirstOf(purchases: seq<Purchase>, k: int, id: string) {
    && 0 <= k < |purchases|
    && purchases[k].articleId == id
    && forall j :: 0 <= j < k ==> purchases[j].articleId != id
  }

  /** `purchases.find(p => p.articleId === id)`: the first purchase of the article. */
  function FirstPurchaseOf(purchases: seq<Purchase>, id: string): (r: Option<Purchase>)
    ensures r.Some? ==> exists k :: FirstOf(purchases, k, id) && purchases[k] == r.value
    ensures r.None? <==> forall k :: 0 <= k < |purchases| ==> purchases[k].articleId != id
  {
    var names := (p: Purchase) => p.articleId == id;
    var r := Find(purchases, names);
    if r.Some? then
      var k :| FirstWhere(purchases, names, k) && purchases[k] == r.value;
      assert FirstOf(purchases, k, id);
      r
    else r
  }

  /**
   * After loading the wallet's purchases: exactly the articles some purchase
   * names are marked, each with the txid of the first purchase naming it.
   */
  function ApplyPurchases(arts: seq<FrontArticle>, purchases: seq<Purchase>): (r: seq<FrontArticle>)
    ensures |r| == |arts|
    ensures forall i :: 0 <= i < |r| ==>
      if exists k :: 0 <= k < |purchases| && purchases[k].articleId == arts[i].id
      then r[i] == Marked(arts[i], FirstPurchaseOf(purchases, arts[i].id).value.txid)
      else r[i] == arts[i]
  {
    seq(|arts|, i requires 0 <= i < |arts| =>
      match FirstPurchaseOf(purchases, arts[i].id)
      case Some(p) => Marked(arts[i], p.txid)
      case None => arts[i])
  }

  // ---------------------------------------------------------------------
  // The unlock handler

  /** The wallet's answer to `createAction`. */
  datatype ActionAnswer = ActionThrew(thrown: Thrown) | ActionReturned(txid: Option<string>)

  /** The backend's answer to the verification request: OK, a non-OK body's `error` member, or a failure. */
  datatype VerifyAnswer = VerifyOk | VerifyRejected(error: Option<string>) | VerifyThrew(thrown: Thrown)

  /** The POST to `/api/protected/articles/{id}/verify-purchase`. */
  datatype VerifyRequest = VerifyRequest(articleId: string, body: ProtectedRoutes.VerifyBody)

  datatype UnlockResult = UnlockResult(
    articles: seq<FrontArticle>, error: Option<string>,
    request: Option<ActionRequest>, verifyRequest: Option<VerifyRequest>)

  /**
   * What `handleUnlockArticle` does: the page state afterwards and the two
   * requests it sends. `lock` builds the author's locking script (a failure
   * carries the thrown message).
   */
  function Unlock(
    arts: seq<FrontArticle>, error: Option<string>, walletPresent: bool, walletAddress: string,
    articleId: string, lock: string -> Result<string, string>, action: ActionAnswer, verify: VerifyAnswer): UnlockResult
  {
    if !walletPresent then UnlockResult(arts, Some("Please connect your wallet first"), None, None)
    else
      match FindFront(arts, articleId)
      case None => UnlockResult(arts, Some("Article not found"), None, None)
      case Some(a) =>
        match lock(a.authorPaymentAddress)
        case Failure(m) => UnlockResult(arts, Some(m), None, None)
        case Success(paymentScript) => Pay(arts, a, walletAddress, paymentScript, action, verify)
  }

  /** The unlock steps from the payment on, for the article `a` found in `arts`. */
  function Pay(
    arts: seq<FrontArticle>, a: FrontArticle, walletAddress: string, paymentScript: string,
    action: ActionAnswer, verify: VerifyAnswer): UnlockResult
  {
    var s := Settle(arts, a, walletAddress, action, verify);
    UnlockResult(s.articles, s.error, Some(ActionRequestFor(a, paymentScript)), s.verifyRequest)
  }

  /** The page state and the verification request once the wallet has answered. */
  datatype Settlement = Settlement(articles: seq<FrontArticle>, error: Option<string>, verifyRequest: Option<VerifyRequest>)

  /** What follows the wallet's answer: an error, or the marking and the verification request. */
  function Settle(
    arts: seq<FrontArticle>, a: FrontArticle, walletAddress: string, action: ActionAnswer, verify: VerifyAnswer): Settlement
  {
    match action
    case ActionThrew(t) => Settlement(arts, Some(ErrorText(t, "Payment failed")), None)
    case ActionReturned(txid) =>
      if !Truthy(txid) then Settlement(arts, Some("Transaction was created but no txid was returned"), None)
      else
        Settlement(
          MarkPurchased(arts, a.id, txid.value), VerifyError(verify),
          Some(VerifyRequest(a.id, ProtectedRoutes.VerifyBody(txid, Some(walletAddress), Some(a.price)))))
  }

  /** The error banner after the verification request. */
  function VerifyError(verify: VerifyAnswer): Option<string> {
    match verify
    case VerifyOk => None
    case VerifyRejected(e) => Some(if Truthy(e) then e.value else "Purchase verification failed")
    case VerifyThrew(t) => Some(ErrorText(t, "Payment failed"))
  }

  /** Without a wallet, or for an unknown id, only the error changes and nothing is sent. */
  lemma UnlockGuards(
    arts: seq<FrontArticle>, error: Option<string>, walletPresent: bool, walletAddress: string,
    articleId: string, lock: string -> Result<string, string>, action: ActionAnswer, verify: VerifyAnswer)
    requires !walletPresent || FindFront(arts, articleId).None?
    ensures var r := Unlock(arts, error, walletPresent, walletAddress, articleId, lock, action, verify);
      && r.articles == arts && r.request.None? && r.verifyRequest.None?
      && r.error == Some(if !walletPresent then "Please connect your wallet first" else "Article not found")
  {
  }

  /** A wallet answer without a txid is an error: no article is marked and no verification is sent. */
  lemma UnlockWithoutTxid(
    arts: seq<FrontArticle>, error: Option<string>, walletAddress: string,
    articleId: string, lock: string -> Result<string, string>, txid: Option<string>, verify: VerifyAnswer)
    requires !Truthy(txid)
    ensures var r := Unlock(arts, error, true, walletAddress, articleId, lock, ActionReturned(txid), verify);
      && r.articles == arts && r.verifyRequest.None? && r.error.Some?
  {
  }

  /**
   * With a txid, only the articles with that id are marked, whatever the
   * backend answers; the verification request carries the txid, the page's
   * wallet address and the article's price as the amount paid.
   */
  lemma UnlockWithTxid(
    arts: seq<FrontArticle>, error: Option<string>, walletAddress: string,
    articleId: string, lock: string -> Result<string, string>, txid: string, verify: VerifyAnswer)
    requires txid != "" && FindFront(arts, articleId).Some?
    requires lock(FindFront(arts, articleId).value.authorPaymentAddress).Success?
    ensures var a := FindFront(arts, articleId).value;
      var r := Unlock(arts, error, true, walletAddress, articleId, lock, ActionReturned(Some(txid)), verify);
      && r.articles == MarkPurchased(arts, articleId, txid)
      && r.verifyRequest == Some(VerifyRequest(articleId, ProtectedRoutes.VerifyBody(Some(txid), Some(walletAddress), Some(a.price))))
      && r.request == Some(ActionRequestFor(a, lock(a.authorPaymentAddress).value))
      && (r.error.None? <==> verify.VerifyOk?)
  {
    var a := FindFront(arts, articleId).value;
    var action := ActionReturned(Some(txid));
    assert Unlock(arts, error, true, walletAddress, articleId, lock, action, verify)
      == Pay(arts, a, walletAddress, lock(a.authorPaymentAddress).value, action, verify);
    var s := Settle(arts, a, walletAddress, action, verify);
    assert s.articles == MarkPurchased(arts, a.id, txid) && s.error == VerifyError(verify);
  }

  /** The answer to the article-list request: a failure (thrown or non-OK), or parsed JSON that is an array or not. */
  datatype ListAnswer = ListFailed | ListArray(items: seq<FrontArticle>) | ListNotArray

  /** `${VITE_API_URL}/api/protected/articles` when the variable is truthy, the local default otherwise. */
  function ArticlesUrl(viteApiUrl: Option<string>): string {
    if Truthy(viteApiUrl) then viteApiUrl.value + "/api/protected/articles"
    else "http://localhost:3001/api/protected/articles"
  }

  /** The page state: the article list, the selected article, the error banner and the busy flag. */
  class HomeState {
    var articles: seq<FrontArticle>
    var selected: Option<FrontArticle>
    var error: Option<string>
    var processing: bool

    constructor ()
      ensures articles == [] && selected.None? && error.None? && !processing
    {
      articles := [];
      selected := None;
      error := None;
      processing := false;
    }

    /**
     * The article-list effect: an array answer replaces the articles while the
     * page is still mounted, a failed request empties them (mounted or not),
     * and any other answer leaves them.
     */
    method LoadArticles(viteApiUrl: Option<string>, mounted: bool, answer: ListAnswer) returns (url: string)
      modifies this
      ensures url == ArticlesUrl(viteApiUrl)
      ensures answer.ListFailed? ==> articles == []
      ensures answer.ListArray? && mounted ==> articles == answer.items
      ensures answer.ListNotArray? || (answer.ListArray? && !mounted) ==> articles == old(articles)
      ensures selected == old(selected) && error == old(error) && processing == old(processing)
    {
      url := ArticlesUrl(viteApiUrl);
      match answer {
        case ListFailed =>
          articles := [];
        case ListArray(items) =>
          if mounted {
            articles := items;
          }
        case ListNotArray =>
      }
    }

    /** `handleUnlockArticle`, step by step over the page state. */
    method UnlockArticle(
      walletPresent: bool, walletAddress: string, articleId: string,
      lock: string -> Result<string, string>, action: ActionAnswer, verify: VerifyAnswer)
      returns (request: Option<ActionRequest>, verifyRequest: Option<VerifyRequest>)
      modifies this
      ensures var r := Unlock(old(articles), old(error), walletPresent, walletAddress, articleId, lock, action, verify);
        && articles == r.articles && error == r.error
        && request == r.request && verifyRequest == r.verifyRequest
      ensures selected == old(selected)
      ensures walletPresent && FindFront(old(articles), articleId).Some? ==> !processing
      ensures !walletPresent || FindFront(old(articles), articleId).None? ==> processing == old(processing)
    {
      ghost var arts, r := articles, Unlock(articles, error, walletPresent, walletAddress, articleId, lock, action, verify);
      request, verifyRequest := None, None;
      if !walletPresent {
        error := Some("Please connect your wallet first");
        assert r == UnlockResult(arts, error, None, None);
      } else {
        var found := FindFront(articles, articleId);
        if found.None? {
          error := Some("Article not found");
          assert r == UnlockResult(arts, error, None, None);
        } else {
          var article := found.value;
          error := None;
          processing := true;
          var opReturnScript := BuildOpReturnScript(article.id, article.title, article.price);
          var locked := lock(article.authorPaymentAddress);
          if locked.Failure? {
            error := Some(locked.error);
            processing := false;
            assert r == UnlockResult(arts, error, None, None);
          } else {
            assert r == Pay(arts, article, walletAddress, locked.value, action, verify);
            request, verifyRequest := PayFor(article, walletAddress, locked.value, opReturnScript, action, verify);
          }
        }
      }
    }

    /** The argument of `createAction`: the payment to the author, then the metadata output. */
    static method CreateActionArgs(article: FrontArticle, paymentScript: string, opReturnScript: string)
      returns (request: ActionRequest)
      requires opReturnScript == OpReturnScript(article.id, article.title, article.price)
      ensures request == ActionRequestFor(article, paymentScript)
    {
      request := ActionRequest(
        "Unlock article: " + article.title,
        [ ActionOutput(paymentScript, article.price, "Article payment to " + article.author),
          ActionOutput(opReturnScript, 0, "Article unlock metadata for \"" + article.title + "\"")]);
    }

    /** The handler from the payment on, once both scripts are built: `createAction`, then what follows its answer. */
    method PayFor(
      article: FrontArticle, walletAddress: string, paymentScript: string, opReturnScript: string,
      action: ActionAnswer, verify: VerifyAnswer)
      returns (request: Option<ActionRequest>, verifyRequest: Option<VerifyRequest>)
      requires opReturnScript == OpReturnScript(article.id, article.title, article.price)
      modifies this
      ensures var s := Settle(old(articles), article, walletAddress, action, verify);
        && articles == s.articles && error == s.error && verifyRequest == s.verifyRequest
        && request == Some(ActionRequestFor(article, paymentScript))
      ensures selected == old(selected) && !processing
    {
      var created := CreateActionArgs(article, paymentScript, opReturnScript);
      request := Some(created);
      verifyRequest := AwaitPayment(article, walletAddress, action, verify);
      processing := false;
    }

    /** The handler from `createAction`'s answer on: the marking, the verification request and the banner. */
    method AwaitPayment(article: FrontArticle, walletAddress: string, action: ActionAnswer, verify: VerifyAnswer)
      returns (verifyRequest: Option<VerifyRequest>)
      modifies this
      ensures var s := Settle(old(articles), article, walletAddress, action, verify);
        articles == s.articles && error == s.error && verifyRequest == s.verifyRequest
      ensures selected == old(selected) && processing == old(processing)
    {
      verifyRequest := None;
      match action {
        case ActionThrew(t) =>
          error := Some(ErrorText(t, "Payment failed"));
        case ActionReturned(txid) =>
          if !Truthy(txid) {
            error := Some("Transaction was created but no txid was returned");
          } else {
            articles := MarkPurchased(articles, article.id, txid.value);
            verifyRequest := Some(VerifyRequest(article.id,
              ProtectedRoutes.VerifyBody(txid, Some(walletAddress), Some(article.price))));
            match verify {
              case VerifyOk =>
                error := None;
              case VerifyRejected(e) =>
                error := Some(if Truthy(e) then e.value else "Purchase verification failed");
              case VerifyThrew(t) =>
                error := Some(ErrorText(t, "Payment failed"));
            }
          }
      }
    }

    /**
     * The purchases effect: runs only when connected with a non-empty address,
     * requests that wallet's purchases and marks the articles they name when
     * the response is OK (`purchases` is `None` otherwise).
     */
    method LoadPurchases(connected: bool, walletAddress: string, purchases: Option<seq<Purchase>>)
      returns (requestedPath: Option<string>)
      modifies this
      ensures requestedPath.Some? <==> connected && walletAddress != ""
      ensures requestedPath.Some? ==> requestedPath.value == "/api/protected/articles/purchases/" + walletAddress
      ensures articles == if requestedPath.Some? && purchases.Some? then ApplyPurchases(old(articles), purchases.value) else old(articles)
      ensures selected == old(selected) && error == old(error) && processing == old(processing)
    {
      if !connected || walletAddress == "" {
        return None;
      }
      requestedPath := Some("/api/protected/articles/purchases/" + walletAddress);
      if purchases.Some? {
        articles := ApplyPurchases(articles, purchases.value);
      }
    }

    /** `handleArticleClick`: a purchased article opens its page, any other opens the unlock dialog. */
    method ArticleClick(article: FrontArticle) returns (navigateTo: Option<string>)
      modifies this
      ensures article.isPurchased ==> navigateTo == Some("/articles/" + article.id) && selected == old(selected)
      ensures !article.isPurchased ==> navigateTo.None? && selected == Some(article)
      ensures articles == old(articles) && error == old(error) && processing == old(processing)
    {
      if article.isPurchased {
        navigateTo := Some("/articles/" + article.id);
      } else {
        navigateTo := None;
        selected := Some(article);
      }
    }
  }
}
