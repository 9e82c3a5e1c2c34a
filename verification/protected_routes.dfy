/**
 * The article routes: the public list and detail projections, the purchase
 * recorder (`verify-purchase`), the two content gates (signature-authenticated
 * GET and body-address POST fallback) and the purchases-by-wallet listing.
 *
 * The collections are in-memory sequences. Where `findOne` may return any
 * matching document, the model takes the first match in sequence order (see
 * `Lookup`). Mongoose applies the schema's `trim` setter when it casts a
 * query filter, so filters on `walletAddress` and `txid` compare trimmed
 * values.
 */
module ProtectedRoutes {
  import opened Wrappers
  import opened JsText
  import opened Schema
  import opened Ordering
  import opened Lookup

  /** One entry of the article list: the article without `fullContent`. */
  datatype ListItem = ListItem(
    id: string, title: string, author: string, subject: string,
    wordCount: int, price: int, preview: string, authorPaymentAddress: string,
    isPurchased: bool)

  /** The single-article preview: the article without `fullContent`. */
  datatype ArticlePreview = ArticlePreview(
    id: string, title: string, author: string, subject: string,
    wordCount: int, price: int, preview: string, authorPaymentAddress: string)

  /** A granted content response; only the POST fallback includes `preview`. */
  datatype ArticleContent = ArticleContent(
    id: string, title: string, author: string, subject: string,
    wordCount: int, price: int, preview: Option<string>, fullContent: string,
    txid: string, isPurchased: bool)

  datatype DetailResponse = Preview(article: ArticlePreview) | DetailNotFound

  /** The JSON body of `verify-purchase`; an absent member is `None`. */
  datatype VerifyBody = VerifyBody(txid: Option<string>, walletAddress: Option<string>, satoshisPaid: Option<int>)

  datatype VerifyResponse =
    | Recorded(txid: string)                          // 200 { success, txid }
    | MissingFields                                   // 400
    | ArticleNotFound                                 // 404
    | PaymentInsufficient(required: int, paid: int)   // 402, amount in the request
    | ExistingInsufficient(required: int, paid: int)  // 402, amount in the stored record
    | ServerError                                     // 500, the create was refused

  datatype VerifyOutcome = VerifyOutcome(resp: VerifyResponse, records: seq<Purchase>)

  datatype ContentResponse =
    | Granted(article: ArticleContent)                // 200
    | AuthenticationRequired                          // 401
    | AddressRequired                                 // 400
    | ContentNotFound                                 // 404
    | AccessDenied(articleId: string, price: Option<int>)  // 403

  function VerifyStatus(r: VerifyResponse): int {
    match r
    case Recorded(_) => 200
    case MissingFields => 400
    case ArticleNotFound => 404
    case PaymentInsufficient(_, _) => 402
    case ExistingInsufficient(_, _) => 402
    case ServerError => 500
  }

  function ContentStatus(r: ContentResponse): int {
    match r
    case Granted(_) => 200
    case AuthenticationRequired => 401
    case AddressRequired => 400
    case ContentNotFound => 404
    case AccessDenied(_, _) => 403
  }

  /** `Article.findOne({ id })`. */
  function FindArticle(arts: seq<Article>, id: string): (r: Option<Article>)
    ensures r.Some? ==> r.value in arts && r.value.id == id
    ensures r.None? <==> forall i :: 0 <= i < |arts| ==> arts[i].id != id
  {
    Find(arts, (a: Article) => a.id == id)
  }

  /** `Purchase.findOne({ txid })` with the filter already trimmed. */
  function FindByTxid(recs: seq<Purchase>, txid: string): (r: Option<Purchase>)
    ensures r.Some? ==> r.value in recs && r.value.txid == txid
    ensures r.None? <==> forall i :: 0 <= i < |recs| ==> recs[i].txid != txid
  {
    Find(recs, (p: Purchase) => p.txid == txid)
  }

  /** The filter `{ articleId, walletAddress, verified: true }` of the content gates. */
  predicate Unlocks(p: Purchase, articleId: string, wallet: string) {
    p.articleId == articleId && p.walletAddress == wallet && p.verified
  }

  /** `recs[i]` is the first record that unlocks the article for the wallet. */
  predicate FirstUnlocking(recs: seq<Purchase>, i: int, articleId: string, wallet: string) {
    && 0 <= i < |recs|
    && Unlocks(recs[i], articleId, wallet)
    && forall j :: 0 <= j < i ==> !Unlocks(recs[j], articleId, wallet)
  }

  /**
   * `Purchase.findOne({ articleId, walletAddress, verified: true })`. Of several
   * matching records the database may return any; the model takes the first.
   */
  function FindAccess(recs: seq<Purchase>, articleId: string, wallet: string): (r: Option<Purchase>)
    ensures r.Some? ==> exists i :: FirstUnlocking(recs, i, articleId, wallet) && recs[i] == r.value
    ensures r.None? <==> forall i :: 0 <= i < |recs| ==> !Unlocks(recs[i], articleId, wallet)
  {
    var unlocks := (p: Purchase) => Unlocks(p, articleId, wallet);
    var r := Find(recs, unlocks);
    if r.Some? then
      var i :| FirstWhere(recs, unlocks, i) && recs[i] == r.value;
      assert FirstUnlocking(recs, i, articleId, wallet);
      r
    else r
  }

  function CreatedAt(a: Article): int { a.createdAt }

  function PurchasedAt(p: Purchase): int { p.purchasedAt }

  function ListItemOf(a: Article): ListItem {
    ListItem(a.id, a.title, a.author, a.subject, a.wordCount, a.price, a.preview, a.authorPaymentAddress, false)
  }

  function PreviewOf(a: Article): ArticlePreview {
    ArticlePreview(a.id, a.title, a.author, a.subject, a.wordCount, a.price, a.preview, a.authorPaymentAddress)
  }

  /** The list entries of `s`, one per article, in the same order. */
  function Project(s: seq<Article>): (r: seq<ListItem>)
    ensures |r| == |s| && forall i :: 0 <= i < |s| ==> r[i] == ListItemOf(s[i])
  {
    if s == [] then [] else [ListItemOf(s[0])] + Project(s[1..])
  }

  /**
   * `GET /articles`: every article exactly once, newest first, each projected
   * without its content and marked unpurchased.
   */
  function ListArticles(arts: seq<Article>): (r: seq<ListItem>)
    ensures |r| == |arts|
    ensures forall i :: 0 <= i < |r| ==> !r[i].isPurchased
    ensures exists s :: SortedDesc(s, CreatedAt) && multiset(s) == multiset(arts) && r == Project(s)
  {
    Project(SortDesc(arts, CreatedAt))
  }

  /** `GET /articles/:id`: the preview of that article, or 404. */
  function GetArticle(arts: seq<Article>, id: string): (r: DetailResponse)
    ensures r.DetailNotFound? <==> forall i :: 0 <= i < |arts| ==> arts[i].id != id
    ensures r.Preview? ==> exists a :: a in arts && a.id == id && r.article == PreviewOf(a)
  {
    match FindArticle(arts, id)
    case None => DetailNotFound
    case Some(a) => Preview(PreviewOf(a))
  }

  /** JavaScript truthiness of the numeric body member: present and non-zero. */
  predicate TruthyNumber(v: Option<int>) { v.Some? && v.value != 0 }

  /** `satoshisPaid || 0`. */
  function PaidOrZero(v: Option<int>): int {
    if TruthyNumber(v) then v.value else 0
  }

  /** The document `verify-purchase` hands to `Purchase.create`. */
  function RecordInput(id: string, body: VerifyBody): PurchaseInput {
    PurchaseInput(Some(id), body.walletAddress, body.txid, body.satoshisPaid, Some(true), None)
  }

  /**
   * `o` answers `Recorded` and appends exactly one verified record of article
   * `id` with the amount of the request and a transaction id not stored before.
   */
  predicate AppendsOne(recs: seq<Purchase>, o: VerifyOutcome, id: string, body: VerifyBody) {
    && o.resp.Recorded?
    && |o.records| == |recs| + 1
    && o.records[..|recs|] == recs
    && o.records[|recs|].txid == o.resp.txid
    && o.records[|recs|].articleId == id
    && o.records[|recs|].verified
    && body.satoshisPaid == Some(o.records[|recs|].satoshisPaid)
    && (forall i :: 0 <= i < |recs| ==> recs[i].txid != o.resp.txid)
  }

  /** The create step of `verify-purchase`, reached when the transaction id is not stored yet. */
  function RecordNew(recs: seq<Purchase>, id: string, body: VerifyBody, now: int): (o: VerifyOutcome)
    ensures o.records == recs || AppendsOne(recs, o, id, body)
    ensures o.records == recs ==> o.resp.ServerError?
    ensures ValidPurchases(recs) ==> ValidPurchases(o.records)
  {
    match NewPurchase(RecordInput(id, body), now)
    case Failure(_) => VerifyOutcome(ServerError, recs)
    case Success(p) =>
      match InsertPurchase(recs, p)
      case Failure(_) => VerifyOutcome(ServerError, recs)
      case Success(recs') =>
        assert recs'[..|recs|] == recs;
        VerifyOutcome(Recorded(p.txid), recs')
  }

  /**
   * `POST /articles/:id/verify-purchase`: the response and the purchase
   * collection afterwards. A call either leaves the collection as it was or
   * appends exactly one verified record, and only when it answers `Recorded`.
   */
  function Verify(arts: seq<Article>, recs: seq<Purchase>, id: string, body: VerifyBody, now: int): (o: VerifyOutcome)
    ensures o.records == recs || AppendsOne(recs, o, id, body)
    ensures ValidPurchases(recs) ==> ValidPurchases(o.records)
  {
    if !Truthy(body.txid) || !Truthy(body.walletAddress) then VerifyOutcome(MissingFields, recs)
    else
      match FindArticle(arts, id)
      case None => VerifyOutcome(ArticleNotFound, recs)
      case Some(a) =>
        if !TruthyNumber(body.satoshisPaid) || body.satoshisPaid.value < a.price then
          VerifyOutcome(PaymentInsufficient(a.price, PaidOrZero(body.satoshisPaid)), recs)
        else
          match FindByTxid(recs, Trim(body.txid.value))
          case Some(p) =>
            if p.satoshisPaid < a.price then VerifyOutcome(ExistingInsufficient(a.price, p.satoshisPaid), recs)
            else VerifyOutcome(Recorded(p.txid), recs)
          case None => RecordNew(recs, id, body, now)
  }

  /** The three rejections come in the order 400, 404, 402, each with the stated amounts. */
  lemma VerifyCheckOrder(arts: seq<Article>, recs: seq<Purchase>, id: string, body: VerifyBody, now: int)
    ensures var o := Verify(arts, recs, id, body, now);
      && (o.resp.MissingFields? <==> !Truthy(body.txid) || !Truthy(body.walletAddress))
      && (o.resp.ArticleNotFound? <==>
            Truthy(body.txid) && Truthy(body.walletAddress) && FindArticle(arts, id).None?)
      && (o.resp.PaymentInsufficient? <==>
            && Truthy(body.txid) && Truthy(body.walletAddress) && FindArticle(arts, id).Some?
            && (!TruthyNumber(body.satoshisPaid) || body.satoshisPaid.value < FindArticle(arts, id).value.price))
      && (o.resp.PaymentInsufficient? ==>
            o.resp.required == FindArticle(arts, id).value.price && o.resp.paid == PaidOrZero(body.satoshisPaid))
  {
    if Truthy(body.txid) && Truthy(body.walletAddress) && FindArticle(arts, id).Some? {
      var a := FindArticle(arts, id).value;
      if TruthyNumber(body.satoshisPaid) && body.satoshisPaid.value >= a.price {
        var o := Verify(arts, recs, id, body, now);
        assert o.resp.ExistingInsufficient? || o.resp.Recorded? || o.resp.ServerError? by {
          if FindByTxid(recs, Trim(body.txid.value)).None? {
            assert o == RecordNew(recs, id, body, now);
          }
        }
      }
    }
  }

  /** Every answer other than `Recorded` leaves the purchase collection unchanged. */
  lemma VerifyFailureKeepsRecords(arts: seq<Article>, recs: seq<Purchase>, id: string, body: VerifyBody, now: int)
    ensures !Verify(arts, recs, id, body, now).resp.Recorded? ==> Verify(arts, recs, id, body, now).records == recs
  {
  }

  /** A zero or missing amount is refused with 402 even for a free article. */
  lemma VerifyRefusesZeroPayment(arts: seq<Article>, recs: seq<Purchase>, id: string, txid: string, wallet: string, now: int)
    requires txid != "" && wallet != "" && FindArticle(arts, id).Some? && FindArticle(arts, id).value.price == 0
    ensures Verify(arts, recs, id, VerifyBody(Some(txid), Some(wallet), Some(0)), now) ==
      VerifyOutcome(PaymentInsufficient(0, 0), recs)
    ensures Verify(arts, recs, id, VerifyBody(Some(txid), Some(wallet), None), now) ==
      VerifyOutcome(PaymentInsufficient(0, 0), recs)
  {
  }

  /**
   * A passing call with a transaction id not yet stored appends exactly the
   * record `{articleId, walletAddress, txid, satoshisPaid, verified: true}`,
   * trimmed and stamped with the current time, and answers with its txid.
   */
  lemma VerifyRecordsNewPurchase(arts: seq<Article>, recs: seq<Purchase>, id: string, body: VerifyBody, now: int)
    requires Truthy(body.txid) && Truthy(body.walletAddress)
    requires Trim(body.txid.value) != "" && Trim(body.walletAddress.value) != ""
    requires FindArticle(arts, id).Some? && id != ""
    requires TruthyNumber(body.satoshisPaid) && body.satoshisPaid.value >= FindArticle(arts, id).value.price >= 0
    requires forall i :: 0 <= i < |recs| ==> recs[i].txid != Trim(body.txid.value)
    ensures Verify(arts, recs, id, body, now) == VerifyOutcome(
      Recorded(Trim(body.txid.value)),
      recs + [Purchase(id, Trim(body.walletAddress.value), Trim(body.txid.value), body.satoshisPaid.value, true, now)])
  {
  }

  /**
   * A truthy but blank `txid` is refused by the schema (500, nothing stored);
   * so is a blank `walletAddress` unless the transaction id is already stored.
   */
  lemma VerifyBlankFieldIsServerError(arts: seq<Article>, recs: seq<Purchase>, id: string, body: VerifyBody, now: int)
    requires Truthy(body.txid) && Truthy(body.walletAddress)
    requires || (Trim(body.txid.value) == "" && ValidPurchases(recs))
             || (Trim(body.walletAddress.value) == "" && FindByTxid(recs, Trim(body.txid.value)).None?)
    requires FindArticle(arts, id).Some?
    requires TruthyNumber(body.satoshisPaid) && body.satoshisPaid.value >= FindArticle(arts, id).value.price
    ensures Verify(arts, recs, id, body, now) == VerifyOutcome(ServerError, recs)
  {
    if Trim(body.txid.value) == "" && ValidPurchases(recs) {
      assert forall i :: 0 <= i < |recs| ==> recs[i].txid != "";
    }
  }

  /**
   * A transaction id that is already stored adds and changes nothing; the
   * stored amount alone decides between 402 and success, and neither the
   * stored article nor the stored wallet is compared with the request.
   */
  lemma VerifyExistingTxid(arts: seq<Article>, recs: seq<Purchase>, id: string, body: VerifyBody, now: int)
    requires Truthy(body.txid) && Truthy(body.walletAddress)
    requires FindArticle(arts, id).Some?
    requires TruthyNumber(body.satoshisPaid) && body.satoshisPaid.value >= FindArticle(arts, id).value.price
    requires FindByTxid(recs, Trim(body.txid.value)).Some?
    ensures var a, p := FindArticle(arts, id).value, FindByTxid(recs, Trim(body.txid.value)).value;
      Verify(arts, recs, id, body, now) ==
        if p.satoshisPaid < a.price then VerifyOutcome(ExistingInsufficient(a.price, p.satoshisPaid), recs)
        else VerifyOutcome(Recorded(p.txid), recs)
  {
  }

  /** Repeating a successful call stores nothing more and answers the same. */
  lemma VerifyIdempotent(arts: seq<Article>, recs: seq<Purchase>, id: string, body: VerifyBody, now: int, later: int)
    requires Verify(arts, recs, id, body, now).resp.Recorded?
    ensures var o := Verify(arts, recs, id, body, now);
      Verify(arts, o.records, id, body, later) == o
  {
    var o := Verify(arts, recs, id, body, now);
    var t := Trim(body.txid.value);
    var a := FindArticle(arts, id).value;
    if FindByTxid(recs, t).None? {
      var p := o.records[|recs|];
      assert forall i :: 0 <= i < |recs| ==> o.records[i] == recs[i];
      FindByTxidAppend(recs, p, t);
      assert p.satoshisPaid == body.satoshisPaid.value;
    }
  }

  lemma {:induction false} FindByTxidAppend(recs: seq<Purchase>, p: Purchase, t: string)
    requires FindByTxid(recs, t).None? && p.txid == t
    ensures FindByTxid(recs + [p], t) == Some(p)
  {
    FindAppend(recs, p, (q: Purchase) => q.txid == t);
  }

  /**
   * Every verified record names an existing article it paid in full for. Every
   * record `Verify` creates meets this, so the gate's missing price check
   * (see `GrantedPaidInFull`) matters only for records written some other way.
   */
  predicate PaidInFull(arts: seq<Article>, recs: seq<Purchase>) {
    forall i :: 0 <= i < |recs| && recs[i].verified ==>
      FindArticle(arts, recs[i].articleId).Some? && recs[i].satoshisPaid >= FindArticle(arts, recs[i].articleId).value.price
  }

  lemma VerifyKeepsPaidInFull(arts: seq<Article>, recs: seq<Purchase>, id: string, body: VerifyBody, now: int)
    requires PaidInFull(arts, recs)
    ensures PaidInFull(arts, Verify(arts, recs, id, body, now).records)
  {
    var o := Verify(arts, recs, id, body, now);
    if o.records != recs {
      VerifyAppendsOnlyWhenPaid(arts, recs, id, body, now);
      AppendKeepsPaidInFull(arts, recs, o, id, body);
    }
  }

  /** Appending a record of a known article with at least its price keeps every verified record paid in full. */
  lemma AppendKeepsPaidInFull(arts: seq<Article>, recs: seq<Purchase>, o: VerifyOutcome, id: string, body: VerifyBody)
    requires PaidInFull(arts, recs) && AppendsOne(recs, o, id, body)
    requires FindArticle(arts, id).Some? && body.satoshisPaid.Some?
    requires body.satoshisPaid.value >= FindArticle(arts, id).value.price
    ensures PaidInFull(arts, o.records)
  {
    forall i | 0 <= i < |o.records| && o.records[i].verified
      ensures FindArticle(arts, o.records[i].articleId).Some?
      ensures o.records[i].satoshisPaid >= FindArticle(arts, o.records[i].articleId).value.price
    {
      if i < |recs| {
        assert o.records[i] == o.records[..|recs|][i];
      }
    }
  }

  /** A record is appended only after every check has passed: both fields, a known article and a sufficient amount. */
  lemma VerifyAppendsOnlyWhenPaid(arts: seq<Article>, recs: seq<Purchase>, id: string, body: VerifyBody, now: int)
    requires Verify(arts, recs, id, body, now).records != recs
    ensures Truthy(body.txid) && Truthy(body.walletAddress)
    ensures FindArticle(arts, id).Some? && TruthyNumber(body.satoshisPaid)
    ensures body.satoshisPaid.value >= FindArticle(arts, id).value.price
  {
  }

  function ContentOf(a: Article, preview: Option<string>, txid: string): ArticleContent {
    ArticleContent(a.id, a.title, a.author, a.subject, a.wordCount, a.price, preview, a.fullContent, txid, true)
  }

  /**
   * `GET /articles/:id/content` after the signature middleware; `identityKey`
   * is the identity it established, if any.
   */
  function ContentGet(arts: seq<Article>, recs: seq<Purchase>, id: string, identityKey: Option<string>): (r: ContentResponse)
    ensures ContentStatus(r) in {200, 401, 403, 404}
    ensures r.Granted? ==> r.article.preview.None? && r.article.isPurchased
  {
    if !Truthy(identityKey) then AuthenticationRequired
    else
      match FindArticle(arts, id)
      case None => ContentNotFound
      case Some(a) =>
        match FindAccess(recs, id, Trim(identityKey.value))
        case None => AccessDenied(id, Some(a.price))
        case Some(p) => Granted(ContentOf(a, None, p.txid))
  }

  /** `POST /articles/:id/content`: the trust-based fallback keyed on the body's `walletAddress`. */
  function ContentPost(arts: seq<Article>, recs: seq<Purchase>, id: string, walletAddress: Option<string>): (r: ContentResponse)
    ensures ContentStatus(r) in {200, 400, 403, 404}
    ensures r.Granted? ==> r.article.preview.Some? && r.article.isPurchased
  {
    if !Truthy(walletAddress) then AddressRequired
    else
      match FindArticle(arts, id)
      case None => ContentNotFound
      case Some(a) =>
        match FindAccess(recs, id, Trim(walletAddress.value))
        case None => AccessDenied(id, None)
        case Some(p) => Granted(ContentOf(a, Some(a.preview), p.txid))
  }

  /**
   * The gate: 401 without an identity, then 404 for an unknown article; access
   * is granted exactly when a verified record of this article and identity
   * exists, with the first such record's txid and the full content; 403 with
   * the price otherwise. The price is not compared with the amount paid.
   */
  lemma ContentGetDecision(arts: seq<Article>, recs: seq<Purchase>, id: string, identityKey: Option<string>)
    ensures var r := ContentGet(arts, recs, id, identityKey);
      && (r.AuthenticationRequired? <==> !Truthy(identityKey))
      && (r.ContentNotFound? <==> Truthy(identityKey) && FindArticle(arts, id).None?)
      && (r.Granted? <==>
            && Truthy(identityKey) && FindArticle(arts, id).Some?
            && exists i :: 0 <= i < |recs| && Unlocks(recs[i], id, Trim(identityKey.value)))
      && (r.Granted? ==>
            && r.article.fullContent == FindArticle(arts, id).value.fullContent
            && r.article.txid == FindAccess(recs, id, Trim(identityKey.value)).value.txid)
      && (r.AccessDenied? ==> r.price == Some(FindArticle(arts, id).value.price) && r.articleId == id)
  {
  }

  /** The fallback asks 400 instead of 401 and then decides exactly as the gate does for that address. */
  lemma ContentPostAgreesWithGet(arts: seq<Article>, recs: seq<Purchase>, id: string, walletAddress: Option<string>)
    ensures ContentPost(arts, recs, id, walletAddress).AddressRequired? <==> !Truthy(walletAddress)
    ensures Truthy(walletAddress) ==>
      var p, g := ContentPost(arts, recs, id, walletAddress), ContentGet(arts, recs, id, walletAddress);
      && (p.Granted? <==> g.Granted?)
      && (p.ContentNotFound? <==> g.ContentNotFound?)
      && (p.AccessDenied? <==> g.AccessDenied?)
      && (p.Granted? ==> p.article.txid == g.article.txid && p.article.fullContent == g.article.fullContent)
  {
  }

  /** Under `PaidInFull` a granted request is backed by a payment of at least the price. */
  lemma GrantedPaidInFull(arts: seq<Article>, recs: seq<Purchase>, id: string, identityKey: Option<string>)
    requires PaidInFull(arts, recs)
    requires ContentGet(arts, recs, id, identityKey).Granted?
    ensures FindAccess(recs, id, Trim(identityKey.value)).value.satoshisPaid >= FindArticle(arts, id).value.price
  {
    var p := FindAccess(recs, id, Trim(identityKey.value)).value;
    var i :| FirstUnlocking(recs, i, id, Trim(identityKey.value)) && recs[i] == p;
    assert recs[i].verified;
  }

  /** The records whose `walletAddress` is `wallet`, in collection order. */
  function WithWallet(recs: seq<Purchase>, wallet: string): (r: seq<Purchase>)
    ensures forall p :: p in r <==> p in recs && p.walletAddress == wallet
    ensures |r| <= |recs|
    ensures forall p :: multiset(r)[p] == if p.walletAddress == wallet then multiset(recs)[p] else 0
  {
    if recs == [] then []
    else
      assert recs == [recs[0]] + recs[1..];
      if recs[0].walletAddress == wallet then [recs[0]] + WithWallet(recs[1..], wallet)
      else WithWallet(recs[1..], wallet)
  }

  /** `GET /articles/purchases/:walletAddress`: that wallet's records, most recent first. */
  function PurchasesOf(recs: seq<Purchase>, wallet: string): (r: seq<Purchase>)
    ensures forall p :: p in r <==> p in recs && p.walletAddress == Trim(wallet)
    ensures multiset(r) == multiset(WithWallet(recs, Trim(wallet)))
    ensures forall p :: multiset(r)[p] == if p.walletAddress == Trim(wallet) then multiset(recs)[p] else 0
    ensures SortedDesc(r, PurchasedAt)
  {
    var mine := WithWallet(recs, Trim(wallet));
    var r := SortDesc(mine, PurchasedAt);
    assert forall p :: p in r <==> p in multiset(mine);
    r
  }

  /** The purchase collection, updated in place by `verify-purchase`. */
  class PurchaseLedger {
    var records: seq<Purchase>

    ghost predicate Valid()
      reads this
    {
      ValidPurchases(records)
    }

    constructor ()
      ensures Valid() && records == []
    {
      records := [];
    }

    /** The handler of `verify-purchase`, with `purchase` reassigned as in the route. */
    method VerifyPurchase(arts: seq<Article>, id: string, body: VerifyBody, now: int) returns (resp: VerifyResponse)
      requires Valid()
      modifies this
      ensures Valid()
      ensures resp == Verify(arts, old(records), id, body, now).resp
      ensures records == Verify(arts, old(records), id, body, now).records
    {
      if !Truthy(body.txid) || !Truthy(body.walletAddress) {
        return MissingFields;
      }
      var article := FindArticle(arts, id);
      if article.None? {
        return ArticleNotFound;
      }
      var a := article.value;
      if !TruthyNumber(body.satoshisPaid) || body.satoshisPaid.value < a.price {
        return PaymentInsufficient(a.price, PaidOrZero(body.satoshisPaid));
      }
      var purchase := FindByTxid(records, Trim(body.txid.value));
      if purchase.None? {
        var created := NewPurchase(RecordInput(id, body), now);
        if created.Failure? {
          return ServerError;
        }
        var inserted := InsertPurchase(records, created.value);
        if inserted.Failure? {
          return ServerError;
        }
        records := inserted.value;
        purchase := Some(created.value);
      } else if purchase.value.satoshisPaid < a.price {
        return ExistingInsufficient(a.price, purchase.value.satoshisPaid);
      }
      resp := Recorded(purchase.value.txid);
    }
  }
}
