/**
 * The two stored entities and what their schemas enforce when a document is
 * created: `trim` setters run first, then `required` (a string must be
 * present and non-empty, a number present) and `min` validators; fields with
 * a `default` take it when absent. A failed validation reports every failing
 * path at once. Unique indexes refuse a second document with the same key.
 */
module Schema {
  import opened Wrappers
  import opened JsText

  /** A stored article; `createdAt` is the timestamp Mongoose adds. */
  datatype Article = Article(
    id: string,
    title: string,
    author: string,
    authorPaymentAddress: string,
    subject: string,
    wordCount: int,
    price: int,
    preview: string,
    fullContent: string,
    createdAt: int)

  /** A stored purchase record. */
  datatype Purchase = Purchase(
    articleId: string,
    walletAddress: string,
    txid: string,
    satoshisPaid: int,
    verified: bool,
    purchasedAt: int)

  /** A validation failure on one path of the document. */
  datatype SchemaError = Missing(path: string) | BelowMin(path: string)

  /** The fields handed to `Article.create`; an absent field is `None`. */
  datatype ArticleInput = ArticleInput(
    id: Option<string>,
    title: Option<string>,
    author: Option<string>,
    authorPaymentAddress: Option<string>,
    subject: Option<string>,
    wordCount: Option<int>,
    price: Option<int>,
    preview: Option<string>,
    fullContent: Option<string>)

  /** The fields handed to `Purchase.create`; an absent field is `None`. */
  datatype PurchaseInput = PurchaseInput(
    articleId: Option<string>,
    walletAddress: Option<string>,
    txid: Option<string>,
    satoshisPaid: Option<int>,
    verified: Option<bool>,
    purchasedAt: Option<int>)

  datatype DuplicateKey = DuplicateKey(key: string)

  /** The value a `trim: true` setter stores. */
  function TrimSet(v: Option<string>): Option<string> {
    if v.Some? then Some(Trim(v.value)) else None
  }

  /** Mongoose's `required` check on a string path. */
  predicate PresentString(v: Option<string>) {
    v.Some? && v.value != ""
  }

  /** The `required` and `min: 0` checks on a number path. */
  function NumberErrors(path: string, v: Option<int>): set<SchemaError> {
    if v.None? then {Missing(path)} else if v.value < 0 then {BelowMin(path)} else {}
  }

  function StringErrors(path: string, v: Option<string>): set<SchemaError> {
    if PresentString(v) then {} else {Missing(path)}
  }

  /** A string `trim` leaves as it is (see `TrimmedIsFixed`). */
  predicate IsTrimmed(s: string) {
    s == [] || (!IsSpace(s[0]) && !IsSpace(s[|s| - 1]))
  }

  lemma TrimmedIsFixed(s: string)
    ensures IsTrimmed(s) <==> Trim(s) == s
  {
    if IsTrimmed(s) {
      TrimOfTrimmed(s);
    }
  }

  /** What the Article schema guarantees of every stored article. */
  predicate ValidArticle(a: Article) {
    && a.id != ""
    && a.title != "" && IsTrimmed(a.title)
    && a.author != "" && IsTrimmed(a.author)
    && a.authorPaymentAddress != "" && IsTrimmed(a.authorPaymentAddress)
    && a.subject != "" && IsTrimmed(a.subject)
    && a.wordCount >= 0
    && a.price >= 0
    && a.preview != ""
    && a.fullContent != ""
  }

  /** What the Purchase schema guarantees of every stored purchase. */
  predicate ValidPurchase(p: Purchase) {
    && p.articleId != ""
    && p.walletAddress != "" && IsTrimmed(p.walletAddress)
    && p.txid != "" && IsTrimmed(p.txid)
    && p.satoshisPaid >= 0
  }

  function ArticleErrors(input: ArticleInput): set<SchemaError> {
    StringErrors("id", input.id)
    + StringErrors("title", TrimSet(input.title))
    + StringErrors("author", TrimSet(input.author))
    + StringErrors("authorPaymentAddress", TrimSet(input.authorPaymentAddress))
    + StringErrors("subject", TrimSet(input.subject))
    + NumberErrors("wordCount", input.wordCount)
    + NumberErrors("price", input.price)
    + StringErrors("preview", input.preview)
    + StringErrors("fullContent", input.fullContent)
  }

  /**
   * `Article.create`: the four descriptive strings are stored trimmed, `id`,
   * `preview` and `fullContent` as given; any failing path rejects the document.
   */
  function NewArticle(input: ArticleInput, now: int): (r: Result<Article, set<SchemaError>>)
    ensures r.Success? <==> ArticleErrors(input) == {}
    ensures r.Failure? ==> r.error == ArticleErrors(input) && r.error != {}
    ensures r.Success? ==> ValidArticle(r.value)
    ensures r.Success? ==>
      && r.value.title == Trim(input.title.value)
      && r.value.author == Trim(input.author.value)
      && r.value.authorPaymentAddress == Trim(input.authorPaymentAddress.value)
      && r.value.subject == Trim(input.subject.value)
    ensures r.Success? ==>
      && r.value.id == input.id.value
      && r.value.preview == input.preview.value
      && r.value.fullContent == input.fullContent.value
      && r.value.price == input.price.value
      && r.value.wordCount == input.wordCount.value
      && r.value.createdAt == now
  {
    var errors := ArticleErrors(input);
    if errors != {} then Failure(errors)
    else
      assert Missing("title") !in errors && Missing("author") !in errors;
      assert Missing("authorPaymentAddress") !in errors && Missing("subject") !in errors;
      Success(Article(
        input.id.value,
        Trim(input.title.value),
        Trim(input.author.value),
        Trim(input.authorPaymentAddress.value),
        Trim(input.subject.value),
        input.wordCount.value,
        input.price.value,
        input.preview.value,
        input.fullContent.value,
        now))
  }

  function PurchaseErrors(input: PurchaseInput): set<SchemaError> {
    StringErrors("articleId", input.articleId)
    + StringErrors("walletAddress", TrimSet(input.walletAddress))
    + StringErrors("txid", TrimSet(input.txid))
    + NumberErrors("satoshisPaid", input.satoshisPaid)
  }

  /**
   * `Purchase.create`: `walletAddress` and `txid` are stored trimmed,
   * `verified` defaults to false and `purchasedAt` to the creation time.
   */
  function NewPurchase(input: PurchaseInput, now: int): (r: Result<Purchase, set<SchemaError>>)
    ensures r.Success? <==>
      && PresentString(input.articleId)
      && input.walletAddress.Some? && Trim(input.walletAddress.value) != ""
      && input.txid.Some? && Trim(input.txid.value) != ""
      && input.satoshisPaid.Some? && input.satoshisPaid.value >= 0
    ensures r.Failure? ==> r.error == PurchaseErrors(input) && r.error != {}
    ensures r.Success? ==> ValidPurchase(r.value)
    ensures r.Success? ==>
      && r.value.articleId == input.articleId.value
      && r.value.walletAddress == Trim(input.walletAddress.value)
      && r.value.txid == Trim(input.txid.value)
      && r.value.satoshisPaid == input.satoshisPaid.value
    ensures r.Success? ==>
      && (input.verified.None? ==> !r.value.verified)
      && (input.verified.Some? ==> r.value.verified == input.verified.value)
    ensures r.Success? ==>
      && (input.purchasedAt.None? ==> r.value.purchasedAt == now)
      && (input.purchasedAt.Some? ==> r.value.purchasedAt == input.purchasedAt.value)
  {
    var errors := PurchaseErrors(input);
    if errors != {} then
      assert !PresentString(input.articleId) ==> Missing("articleId") in errors;
      assert input.satoshisPaid.Some? && input.satoshisPaid.value < 0 ==> BelowMin("satoshisPaid") in errors;
      Failure(errors)
    else
      assert Missing("walletAddress") !in errors && Missing("txid") !in errors;
      Success(Purchase(
        input.articleId.value,
        Trim(input.walletAddress.value),
        Trim(input.txid.value),
        input.satoshisPaid.value,
        input.verified.GetOr(false),
        input.purchasedAt.GetOr(now)))
  }

  /** The unique index on `Article.id`. */
  predicate UniqueIds(arts: seq<Article>) {
    forall i, j :: 0 <= i < j < |arts| ==> arts[i].id != arts[j].id
  }

  /** The unique index on `Purchase.txid`. */
  predicate UniqueTxids(recs: seq<Purchase>) {
    forall i, j :: 0 <= i < j < |recs| ==> recs[i].txid != recs[j].txid
  }

  /** A collection of articles every document of which the schema admitted. */
  predicate ValidArticles(arts: seq<Article>) {
    UniqueIds(arts) && forall i :: 0 <= i < |arts| ==> ValidArticle(arts[i])
  }

  /** A collection of purchases every document of which the schema admitted. */
  predicate ValidPurchases(recs: seq<Purchase>) {
    UniqueTxids(recs) && forall i :: 0 <= i < |recs| ==> ValidPurchase(recs[i])
  }

  /** Inserting an article: refused when its `id` is already stored, appended otherwise. */
  function InsertArticle(arts: seq<Article>, a: Article): (r: Result<seq<Article>, DuplicateKey>)
    ensures r.Failure? <==> exists i :: 0 <= i < |arts| && arts[i].id == a.id
    ensures r.Success? ==> r.value == arts + [a]
    ensures r.Success? && ValidArticles(arts) && ValidArticle(a) ==> ValidArticles(r.value)
  {
    if exists i :: 0 <= i < |arts| && arts[i].id == a.id then Failure(DuplicateKey(a.id))
    else
      var r := arts + [a];
      assert forall i :: 0 <= i < |arts| ==> r[i] == arts[i];
      Success(r)
  }

  /** Inserting a purchase: refused when its `txid` is already stored, appended otherwise. */
  function InsertPurchase(recs: seq<Purchase>, p: Purchase): (r: Result<seq<Purchase>, DuplicateKey>)
    ensures r.Failure? <==> exists i :: 0 <= i < |recs| && recs[i].txid == p.txid
    ensures r.Success? ==> r.value == recs + [p]
    ensures r.Success? && ValidPurchases(recs) && ValidPurchase(p) ==> ValidPurchases(r.value)
  {
    if exists i :: 0 <= i < |recs| && recs[i].txid == p.txid then Failure(DuplicateKey(p.txid))
    else
      var r := recs + [p];
      assert forall i :: 0 <= i < |recs| ==> r[i] == recs[i];
      Success(r)
  }
}
