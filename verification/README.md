# Micropayment content access, modelled in Dafny

This project models the core of a pay-per-article platform. A reader
connects a browser wallet and pays an article's price in satoshis. The
payment goes to the author's address, plus a zero-value OP_RETURN output
that carries metadata. The client then reports the transaction id to the
backend, which records a purchase. The full content is released only to
an identity that holds a verified purchase of that article.

The model covers:

- **Backend routes** (`protected.ts`), in `protected_routes.dfy`:
  - the list and detail projections;
  - `verify-purchase`, as a specification function `Verify` and as the
    method `PurchaseLedger.VerifyPurchase` over the purchase collection it
    updates;
  - the two content gates: the signed GET and the trust-based POST fallback;
  - the purchases listing.
- **Schemas** (`Article.ts`, `Purchase.ts`), in `schema.dfy`:
  - document creation with the `required`, `min: 0`, `trim` and `default`
    rules;
  - the unique indexes on `Article.id` and `Purchase.txid`.
- **Application shell** (`App.tsx`):
  - `base58Encode` as an imperative method over a byte array, proved
    against a reference encoder with a decode round trip (`base58.dfy`);
  - `publicKeyToAddress` with its two in-place byte buffers (`address.dfy`);
  - the 30-minute session rule and the restore/connect/disconnect handlers,
    as a class over the React state and the `localStorage` slot
    (`session.dfy`).
- **Home page** (`HomePage.tsx`), in `home_page.dfy`:
  - `stringToHex` as a loop over UTF-16 code units;
  - the OP_RETURN script and the two-output `createAction` request;
  - the list transforms that mark articles purchased;
  - the page handlers as methods of `HomeState`.
- **Authenticated fetch** (`authFetch.ts`), in `auth_fetch.dfy`: the
  first-match choice between the browser wallet's `authFetch`, the wallet
  client's `authFetch` and the trust-based POST, and
  `fetchAuthenticatedArticle`'s error mapping.
- **Wallet helpers** (`wallet.ts`), in `wallet.dfy`: the capability chains
  over the injected `window.bsv` object.
- **Article page** (`ArticleDetailPage.tsx`):
  - the effect that loads the content and decides between showing it,
    showing an error and navigating home (`detail_page.dfy`);
  - `markdownToHtml` (`markdown.dfy`). Each regular expression of the
    renderer is written out as the scan the JavaScript engine performs.

Shared pieces:

- `js_text.dfy`: ECMAScript white space, `trim`, truthiness,
  `Number.prototype.toString(radix)` and `padStart`.
- `lookup.dfy`: the first-match search behind `Array.prototype.find` and
  `findOne`.
- `ordering.dfy`: the descending sort behind `.sort({ key: -1 })`.
- `wrappers.dfy`: `Option` and `Result`.

## How the code differs from its design description

The model follows the code at each of these points:

- **Access gate.**
  - The content gates check only for a verified record with a matching
    article and wallet; they never compare the amount paid with the price.
  - `ContentGetDecision` states the gate as coded.
  - `GrantedPaidInFull` shows the price condition holds only under the
    invariant `PaidInFull`, which `Verify` preserves
    (`VerifyKeepsPaidInFull`).
- **`verify-purchase` order.**
  - It first answers 400 for a missing `txid` or `walletAddress`.
  - It refuses a zero or absent amount with 402 even for a free article,
    because `!satoshisPaid` is true for 0.
- **Stored-txid branch.** It does not compare the stored record's article
  or wallet with the request.
- **Missing fallback address.** The trust-based fallback throws when no
  address is known, so the adapter can fail outright.
- **Session contents.** The stored session holds the wallet's public key,
  not its address.
- **Trimmed lookups.** Mongoose applies the `trim` setter of `walletAddress`
  and `txid` to query filters too, so lookups compare trimmed values.

## Model

| member | source | states |
|---|---|---|
| JsText.LeadingSpaces | frontend/src/pages/ArticleDetailPage.tsx:156 | the white space `trim` drops at the front: all of it is white space and the next character is not |
| JsText.TrailingSpaces | frontend/src/pages/ArticleDetailPage.tsx:156 | the white space `trim` drops at the end: all of it is white space and the character before it is not |
| JsText.Trim | frontend/src/pages/ArticleDetailPage.tsx:156 | `trim` keeps a contiguous middle slice that neither starts nor ends with white space, and drops only white space after it |
| JsText.TrimOfTrimmed | backend/src/models/Article.ts:24-28 | a string without white space at either end is its own trim |
| JsText.TrimIdempotent | backend/src/models/Article.ts:24-28 | trimming a stored trimmed value again changes nothing |
| JsText.LineTerminatorIsSpace | frontend/src/pages/ArticleDetailPage.tsx:144 | every line terminator is matched by `\s`, so the `\s*` after a heading's hashes can run onto the next line |
| JsText.Repeat | frontend/src/App.tsx:72 | `'1'.repeat(n)` is n copies of the character |
| JsText.PadStart | frontend/src/pages/HomePage.tsx:118 | `padStart(n, c)` has length max(\|s\|, n), ends with `s` and is filled with `c` in front |
| JsText.DigitValue | frontend/src/pages/HomePage.tsx:118 | a digit's value is its position among the lower-case radix-36 digits |
| JsText.DigitValueOfDigitChar | frontend/src/pages/HomePage.tsx:118 | each of the 36 digit characters reads back as its own value |
| JsText.NumberToStringDigits | frontend/src/pages/HomePage.tsx:118 | `n.toString(radix)` is non-empty and made only of digits of that radix |
| JsText.ParseNumberToStringStep | frontend/src/pages/HomePage.tsx:118 | the step of the round trip: appending the last digit multiplies by the radix and adds that digit |
| JsText.ParseNumberToString | frontend/src/pages/ArticleDetailPage.tsx:163-164 | reading back what `toString(radix)` wrote gives the number: a placeholder's index survives `Number(idx)` |
| JsText.NumberToString | frontend/src/pages/HomePage.tsx:118 | no contract of its own; specified by NumberToStringDigits and ParseNumberToString |
| JsText.HexShort | frontend/src/pages/HomePage.tsx:118 | a code below 256 takes at most two hex digits, so the padding makes exactly two |
| Ordering.ConsSorted | backend/src/routes/protected.ts:140 | a record with a key no smaller than the head keeps a descending sequence sorted |
| Ordering.InsertDesc | backend/src/routes/protected.ts:140 | inserting into a descending sequence gives a descending permutation with one more element |
| Ordering.SortDesc | backend/src/routes/protected.ts:21 | `.sort({ key: -1 })` returns the same documents, each as often, in descending key order |
| Schema.TrimmedIsFixed | backend/src/models/Article.ts:24-43 | a value is stored unchanged by a `trim` path exactly when it has no white space at either end |
| Schema.NewArticle | backend/src/models/Article.ts:17-66 | creation succeeds iff no path fails `required`/`min: 0`; title, author, payment address and subject are stored trimmed; id, preview and content as given; price and word count at least 0; the timestamp is the creation time |
| Schema.NewPurchase | backend/src/models/Purchase.ts:14-41 | creation succeeds iff articleId, a non-blank trimmed walletAddress and txid, and a non-negative satoshisPaid are given; walletAddress and txid are stored trimmed; verified defaults to false and purchasedAt to the creation time |
| Schema.InsertArticle | backend/src/models/Article.ts:19-23 | an article whose id is already stored is refused; otherwise it is appended and validity of the collection is kept |
| Schema.InsertPurchase | backend/src/models/Purchase.ts:50 | a purchase whose txid is already stored is refused (unique index); otherwise it is appended |
| ProtectedRoutes.FindArticle | backend/src/routes/protected.ts:47 | `Article.findOne({ id })` returns a stored article with that id, and nothing exactly when there is none |
| ProtectedRoutes.FindByTxid | backend/src/routes/protected.ts:96 | `Purchase.findOne({ txid })` returns a stored record with that txid, and nothing exactly when there is none |
| ProtectedRoutes.FindByTxidAppend | backend/src/routes/protected.ts:96-107 | a purchase created for a txid no stored record has is the one `findOne({ txid })` then finds |
| ProtectedRoutes.FindAccess | backend/src/routes/protected.ts:194-198 | the first record with that article, that wallet and `verified: true`, and nothing exactly when no record matches |
| ProtectedRoutes.Project | backend/src/routes/protected.ts:24-34 | one list entry per article, in order, holding the listed fields and never the full content |
| ProtectedRoutes.ListArticles | backend/src/routes/protected.ts:19-41 | every article exactly once, newest first, projected without content and marked not purchased |
| ProtectedRoutes.GetArticle | backend/src/routes/protected.ts:44-68 | 404 exactly when no article has the id; otherwise that article's preview projection, without content |
| ProtectedRoutes.RecordNew | backend/src/routes/protected.ts:96-107 | the create step either appends exactly one verified record of the article with the request's amount, or answers 500 and stores nothing |
| ProtectedRoutes.Verify | backend/src/routes/protected.ts:71-131 | a call leaves the purchase collection as it was or appends exactly one verified record with a new txid, and keeps every stored record schema-valid |
| ProtectedRoutes.VerifyCheckOrder | backend/src/routes/protected.ts:76-93 | 400 exactly when txid or walletAddress is falsy, then 404 exactly for an unknown article, then 402 exactly for a falsy or short amount, carrying the price and `satoshisPaid \|\| 0` |
| ProtectedRoutes.VerifyFailureKeepsRecords | backend/src/routes/protected.ts:76-119 | no answer other than success changes the purchase collection |
| ProtectedRoutes.VerifyRefusesZeroPayment | backend/src/routes/protected.ts:87-92 | an amount of 0 or none is refused with 402 (required 0, paid 0) even when the price is 0 |
| ProtectedRoutes.VerifyRecordsNewPurchase | backend/src/routes/protected.ts:96-126 | with a new txid a passing call appends exactly `{articleId, walletAddress, txid, satoshisPaid, verified: true, purchasedAt: now}`, trimmed, and answers with that txid |
| ProtectedRoutes.VerifyBlankFieldIsServerError | backend/src/routes/protected.ts:101-107 | a truthy but blank txid, or blank walletAddress with a new txid, fails schema validation: 500 and nothing stored |
| ProtectedRoutes.VerifyExistingTxid | backend/src/routes/protected.ts:110-126 | a stored txid adds nothing; only the stored amount decides between 402 and success with the stored txid, whatever article or wallet the record names |
| ProtectedRoutes.VerifyIdempotent | backend/src/routes/protected.ts:96-126 | repeating a successful call stores nothing more and gives the same answer |
| ProtectedRoutes.VerifyAppendsOnlyWhenPaid | backend/src/routes/protected.ts:76-107 | a record is appended only after both fields are truthy, the article exists and the amount covers its price |
| ProtectedRoutes.AppendKeepsPaidInFull | backend/src/routes/protected.ts:101-107 | appending a record paid in full keeps every verified record paid in full |
| ProtectedRoutes.VerifyKeepsPaidInFull | backend/src/routes/protected.ts:87-107 | `verify-purchase` preserves the invariant that every verified record paid at least its article's price |
| ProtectedRoutes.ContentGet | backend/src/routes/protected.ts:166-228 | the signed content request answers 200, 401, 403 or 404; a grant carries the full content without preview, marked purchased |
| ProtectedRoutes.ContentPost | backend/src/routes/protected.ts:233-283 | the fallback answers 200, 400, 403 or 404; a grant also carries the preview |
| ProtectedRoutes.ContentGetDecision | backend/src/routes/protected.ts:175-222 | 401 iff no identity, then 404 iff no article; granted iff a verified record of that article and identity exists, with the first one's txid and the full content; otherwise 403 with the price |
| ProtectedRoutes.ContentPostAgreesWithGet | backend/src/routes/protected.ts:236-278 | 400 iff no address; otherwise the fallback grants, denies and answers 404 exactly as the signed gate does for that identity, with the same txid and content |
| ProtectedRoutes.GrantedPaidInFull | backend/src/routes/protected.ts:194-207 | under the paid-in-full invariant a granted request is backed by a payment of at least the price |
| ProtectedRoutes.WithWallet | backend/src/routes/protected.ts:140 | the filter `{ walletAddress }` keeps exactly the records of that wallet, each as many times as it is stored, and no others |
| ProtectedRoutes.PurchasesOf | backend/src/routes/protected.ts:134-161 | exactly the records of the (trimmed) wallet, each as many times as it is stored, most recent `purchasedAt` first (ties in any order) |
| ProtectedRoutes.PurchaseLedger.VerifyPurchase | backend/src/routes/protected.ts:71-131 | the handler, reassigning `purchase` and inserting into the collection, answers and updates exactly as `Verify` and keeps the collection valid |
| ProtectedRoutes.PurchaseLedger.constructor | backend/src/models/Purchase.ts:52 | the purchase collection starts empty and valid: every record meets the schema and no two share a txid |
| Base58.AlphabetIndex | frontend/src/App.tsx:49 | the position of a character in the alphabet, 58 for any other character |
| Base58.AlphabetAt | frontend/src/App.tsx:49 | the alphabet has 58 characters and each one's position is its index |
| Base58.AlphabetDigitsAndUpper | frontend/src/App.tsx:49 | the digits 1-9 and the letters A-H, J-N sit at their indexes 0-21 |
| Base58.AlphabetUpperAndLower | frontend/src/App.tsx:49 | the letters P-Z and a-k sit at their indexes 22-43 |
| Base58.AlphabetShape | frontend/src/App.tsx:49 | 58 distinct characters, none of them '0', 'O', 'I' or 'l' |
| Base58.InAlphabetIsMember | frontend/src/App.tsx:49 | a character has a position below 58 exactly when it is in the alphabet |
| Base58.AlphabetIndexInjective | frontend/src/App.tsx:49 | two characters at the same position are the same |
| Base58.LeadingZeros | frontend/src/App.tsx:52-55 | the count of zero bytes before the first non-zero byte |
| Base58.Base58Encode | frontend/src/App.tsx:48-73 | the three loops over the byte array produce the reference encoding: one '1' per leading zero, then the base-58 digits |
| Base58.LeadingZerosStep | frontend/src/App.tsx:53-54 | each zero byte at the front adds one to the count |
| Base58.BytesToNatPrefix | frontend/src/App.tsx:59-61 | `num * 256 + byte` is the value of the bytes read so far |
| Base58.NatToBase58Step | frontend/src/App.tsx:65-69 | prepending the alphabet character of `num % 58` and dividing by 58 keeps the digits of the original number |
| Base58.NatToBase58InAlphabet | frontend/src/App.tsx:65-69 | every emitted digit is an alphabet character |
| Base58.EncodeInAlphabet | frontend/src/App.tsx:67 | every output character is drawn from the 58-character alphabet |
| Base58.NatToBase58NoLeadingOne | frontend/src/App.tsx:65-69 | the digits are empty exactly for zero and otherwise never start with '1' |
| Base58.BytesToNatZero | frontend/src/App.tsx:58-61 | the bytes are worth zero exactly when they are all zero |
| Base58.EncodeLeadingOnes | frontend/src/App.tsx:72 | the output starts with exactly one '1' per leading zero byte and no more |
| Base58.EncodeZeros | frontend/src/App.tsx:52-72 | the empty input gives "" and n zero bytes give n '1's |
| Base58.ParseNatToBase58 | frontend/src/App.tsx:63-69 | reading the base-58 digits back gives the number |
| Base58.NatToBytesOfBytes | frontend/src/App.tsx:58-61 | bytes without a leading zero come back unchanged from their value |
| Base58.BytesToNatSkipZeros | frontend/src/App.tsx:58-61 | leading zero bytes do not change the value |
| Base58.LeadingOnesOfEncoding | frontend/src/App.tsx:72 | the prefix of '1's is counted exactly when the digits after it do not start with '1' |
| Base58.DecodeEncode | frontend/src/App.tsx:48-73 | decoding the encoding and re-adding the zero bytes gives back the input |
| Base58.Encode | frontend/src/App.tsx:48-73 | no contract of its own; the reference encoding Base58Encode is proved against, specified by EncodeInAlphabet, EncodeLeadingOnes, EncodeZeros and DecodeEncode |
| Base58.Decode | frontend/src/App.tsx:48-73 | no contract of its own; the inverse of Encode, specified by DecodeEncode |
| Address.Checksum | frontend/src/App.tsx:30-32 | `hash2.slice(0, 4)`: the first four bytes of the double SHA-256 of the payload, or the whole digest when it is shorter |
| Address.SetAt | frontend/src/App.tsx:26-27 | `Uint8Array.set` copies the source from the offset and leaves every other byte |
| Address.SpliceToEnd | frontend/src/App.tsx:35-37 | a copy that reaches the end of the buffer leaves the bytes before it followed by the source |
| Address.PublicKeyToAddress | frontend/src/App.tsx:18-45 | the buffer-filling assembly gives the Base58 of `0x00 ‖ hash160 ‖ checksum`, or the input when the key is rejected |
| Address.AddressLayout | frontend/src/App.tsx:24-40 | with standard digests an accepted key gives 25 bytes `0x00 ‖ hash160(key) ‖ first4(sha256(sha256(payload)))`, an address starting with '1' that decodes back to them |
| Address.AddressOf | frontend/src/App.tsx:18-45 | no contract of its own; specified by PublicKeyToAddress and AddressLayout |
| Session.RestoreOnlyMatching | frontend/src/App.tsx:84-132 | a session is restored iff one is stored, not expired, and the wallet is authenticated with the stored key; every other path with something stored clears it |
| Session.ExpiryBoundary | frontend/src/App.tsx:96 | a session exactly 30 minutes old is valid and one a millisecond older is expired |
| Session.Expired | frontend/src/App.tsx:96 | no contract of its own; specified by ExpiryBoundary |
| Session.RestoreDecision | frontend/src/App.tsx:84-132 | no contract of its own; specified by RestoreOnlyMatching |
| Session.AppState.constructor | frontend/src/App.tsx:76-80 | on mount: not connected, no wallet, empty address, restoring, not loading |
| Session.AppState.Restore | frontend/src/App.tsx:84-132 | restoring sets the wallet, the derived address and the flag exactly on a match, removes the stored session otherwise, and always ends restoring |
| Session.AppState.Connect | frontend/src/App.tsx:137-177 | on an authenticated wallet it connects with the derived address and stores the public key with the time; otherwise it alerts and only clears the flag; loading always ends |
| Session.AppState.Disconnect | frontend/src/App.tsx:179-184 | clears the wallet, the address, the flag and the stored session |
| HomePage.CharUnits | frontend/src/pages/HomePage.tsx:118 | a character has one or two UTF-16 code units, one equal to its code when below 0x10000 |
| HomePage.Utf16Units | frontend/src/pages/HomePage.tsx:117 | a string has at least as many code units as characters, each below 0x10000 |
| HomePage.Utf16Latin1 | frontend/src/pages/HomePage.tsx:117-118 | a string of codes below 256 has one code unit per character, equal to its code |
| HomePage.StringToHex | frontend/src/pages/HomePage.tsx:115-121 | the loop appends the padded lower-case hex of every code unit, in order |
| HomePage.HexOfUnitsPrefix | frontend/src/pages/HomePage.tsx:117-119 | one more code unit appends its padded hex to what came before |
| HomePage.UnitHexByte | frontend/src/pages/HomePage.tsx:118 | a code below 256 becomes exactly two hex digits that read back as the code |
| HomePage.DecodeHexPairsSnoc | frontend/src/pages/HomePage.tsx:118 | one more two-digit pair reads back as one more code |
| HomePage.HexOfBytes | frontend/src/pages/HomePage.tsx:115-121 | for codes below 256 the hex is twice as long and reads back as the codes |
| HomePage.HexOfBytesSnoc | frontend/src/pages/HomePage.tsx:117-119 | the step of that round trip for one more code |
| HomePage.HexOfLatin1 | frontend/src/pages/HomePage.tsx:115-121 | `stringToHex` of a string of codes below 256 has twice its length and decodes to its codes |
| HomePage.Hex | frontend/src/pages/HomePage.tsx:115-121 | no contract of its own; the specification StringToHex is proved against, with HexOfLatin1 |
| HomePage.OpReturnFields | frontend/src/pages/HomePage.tsx:124-134 | the protocol tag takes 28 hex characters, and a title's length field is two hex digits counting hex characters (twice the bytes) |
| HomePage.BuildOpReturnScript | frontend/src/pages/HomePage.tsx:124-134 | the script is `006a04`, the protocol tag, `02`, the id hex, then the length-prefixed title and price hex |
| HomePage.OpReturnScript | frontend/src/pages/HomePage.tsx:124-134 | no contract of its own; specified by OpReturnFields and BuildOpReturnScript |
| HomePage.ActionRequestFor | frontend/src/pages/HomePage.tsx:147-161 | exactly two outputs: the price to the author's locking script, and 0 satoshis carrying the metadata script |
| HomePage.FindFront | frontend/src/pages/HomePage.tsx:102 | `articles.find` returns an article with that id, and nothing exactly when there is none |
| HomePage.MarkPurchased | frontend/src/pages/HomePage.tsx:170-174 | only the articles with that id are marked purchased with the txid; length, order and the rest stay |
| HomePage.FirstPurchaseOf | frontend/src/pages/HomePage.tsx:78-80 | `purchases.find` returns the first purchase naming the article, and nothing exactly when none does |
| Lookup.Find | backend/src/routes/protected.ts:47 | the first element the filter accepts, found at the first accepting position; nothing exactly when no element is accepted |
| Lookup.FindAppend | backend/src/routes/protected.ts:96-107 | after a search that finds nothing, an appended accepted element is the one found |
| HomePage.ApplyPurchases | frontend/src/pages/HomePage.tsx:76-86 | exactly the articles some purchase names are marked, with the first such purchase's txid; length, order and the rest stay |
| HomePage.UnlockGuards | frontend/src/pages/HomePage.tsx:97-106 | without a wallet, or for an unknown id, only the error is set and nothing is sent |
| HomePage.UnlockWithoutTxid | frontend/src/pages/HomePage.tsx:163-167 | a wallet answer without a txid sets the error, marks nothing and sends no verification |
| HomePage.UnlockWithTxid | frontend/src/pages/HomePage.tsx:170-191 | with a txid only that article is marked; the verification carries the txid, the page's address and the price; the banner clears exactly on an OK answer |
| HomePage.Unlock | frontend/src/pages/HomePage.tsx:96-201 | no contract of its own; specified by UnlockGuards, UnlockWithoutTxid and UnlockWithTxid |
| HomePage.Settle | frontend/src/pages/HomePage.tsx:163-199 | no contract of its own; specified by UnlockWithoutTxid and UnlockWithTxid |
| HomePage.HomeState.constructor | frontend/src/pages/HomePage.tsx:27-30 | no articles, nothing selected, no error, not processing |
| HomePage.HomeState.LoadArticles | frontend/src/pages/HomePage.tsx:33-59 | an array answer replaces the articles while mounted, a failure empties them, anything else leaves them |
| HomePage.HomeState.UnlockArticle | frontend/src/pages/HomePage.tsx:96-201 | the handler updates the page and sends the two requests exactly as `Unlock` says, and clears the busy flag once it was set |
| HomePage.HomeState.CreateActionArgs | frontend/src/pages/HomePage.tsx:147-161 | the `createAction` argument built in the handler is the two-output request ActionRequestFor describes |
| HomePage.HomeState.PayFor | frontend/src/pages/HomePage.tsx:147-199 | from the payment on, the request is ActionRequestFor, the marking, banner and verification request are as `Settle` says, and the busy flag ends cleared |
| HomePage.HomeState.AwaitPayment | frontend/src/pages/HomePage.tsx:163-199 | from the wallet's answer on: the marking, the verification request and the banner as `Settle` says |
| HomePage.HomeState.LoadPurchases | frontend/src/pages/HomePage.tsx:62-94 | the request is made iff connected with an address, to that wallet's purchases path, and an OK answer applies the purchases |
| HomePage.HomeState.ArticleClick | frontend/src/pages/HomePage.tsx:203-211 | a purchased article navigates to `/articles/{id}`; any other is selected for the dialog |
| AuthFetch.WindowChannelFirst | frontend/src/utils/authFetch.ts:37-40 | the browser wallet's `authFetch` is used whenever present, with the caller's options untouched |
| AuthFetch.WalletChannelSecond | frontend/src/utils/authFetch.ts:43-48 | otherwise the wallet client's `authFetch` is used when it is a function |
| AuthFetch.TrustFallback | frontend/src/utils/authFetch.ts:53-62 | otherwise the fallback is used iff the argument or the browser global gives an address, the argument first; with neither the call throws and sends nothing |
| AuthFetch.FallbackRequestShape | frontend/src/utils/authFetch.ts:69-77 | the fallback is always a POST whose body is the address; the caller's other members and headers are kept, and the JSON content type stands unless the caller set one |
| AuthFetch.FetchArticleOutcome | frontend/src/utils/authFetch.ts:103-126 | the request targets `{api}/api/protected/articles/{id}/content`; non-OK throws `message`, else `error`, else "Authentication failed"; an OK body is returned; a failure is rethrown |
| AuthFetch.RejectionMessagePriority | frontend/src/utils/authFetch.ts:115-118 | the error text prefers `message`, then `error`, then "Authentication failed" |
| AuthFetch.Dispatch | frontend/src/utils/authFetch.ts:36-62 | no contract of its own; specified by WindowChannelFirst, WalletChannelSecond and TrustFallback |
| AuthFetch.FallbackInit | frontend/src/utils/authFetch.ts:69-77 | no contract of its own; specified by FallbackRequestShape |
| AuthFetch.Fetch | frontend/src/utils/authFetch.ts:29-82 | no contract of its own; specified by TrustFallback (a throw before any request) and FetchArticleOutcome (what the request returns or throws is passed on) |
| AuthFetch.FetchAuthenticatedArticle | frontend/src/utils/authFetch.ts:103-126 | no contract of its own; specified by FetchArticleOutcome and RejectionMessagePriority |
| Wallet.ConnectWallet | frontend/src/utils/wallet.ts:62-82 | a successful connection is always connected and has an address |
| Wallet.ConnectWalletOutcome | frontend/src/utils/wallet.ts:62-82 | connecting fails, in order, without a wallet, without `connect`, and without an address; otherwise it returns the address and the key, "" by default |
| Wallet.DisconnectWallet | frontend/src/utils/wallet.ts:85-91 | `disconnect` is called exactly when the wallet has one |
| Wallet.BuildSendParams | frontend/src/utils/wallet.ts:104-107 | `satoshis` is set only when numeric, `outputs` and `data` only when non-empty, each to the request's value |
| Wallet.SendPayment | frontend/src/utils/wallet.ts:94-116 | without a wallet or `send` it throws without sending; otherwise `send` gets the request's satoshis, and its outputs and data exactly when they are non-empty; a missing result or txid throws; `rawtx` defaults to "" |
| Wallet.BalanceAndNetworkDefaults | frontend/src/utils/wallet.ts:119-136 | the balance throws only without a wallet and is 0 when not exposed; the network is "unknown" without a wallet and "mainnet" when not exposed |
| Wallet.AuthResult | frontend/src/utils/wallet.ts:158-159 | a returned auth response always has a token; a reply without one throws |
| Wallet.RequestAuthOrder | frontend/src/utils/wallet.ts:148-172 | without a wallet it throws "BSV Desktop wallet not found", with a null one "Wallet object not available"; otherwise the object form's `request` is preferred, then the function form, each with the scopes (default `["auth"]`); a missing token throws, and neither form throws |
| Wallet.RevokeAuthOrder | frontend/src/utils/wallet.ts:175-202 | without a wallet it throws "BSV Desktop wallet not found", with a null one "Wallet object not available"; otherwise the object's `revoke` (given `{token}` or `undefined`), then the function's, then the top-level one; the answer is coerced to boolean; none present throws |
| Wallet.CoercedIsTruthiness | frontend/src/utils/wallet.ts:184 | `!!` gives false exactly for `undefined`, `null`, `false`, 0 and "" |
| Wallet.GetBalance | frontend/src/utils/wallet.ts:119-126 | no contract of its own; specified by BalanceAndNetworkDefaults |
| Wallet.GetNetwork | frontend/src/utils/wallet.ts:129-136 | no contract of its own; specified by BalanceAndNetworkDefaults |
| Wallet.RequestAuth | frontend/src/utils/wallet.ts:148-172 | no contract of its own; specified by RequestAuthOrder |
| Wallet.RevokeAuth | frontend/src/utils/wallet.ts:175-202 | no contract of its own; specified by RevokeAuthOrder |
| DetailPage.LoadGuards | frontend/src/pages/ArticleDetailPage.tsx:23-36 | without an id an error is shown; without a connection, counterparty or wallet the page goes home; no request is sent in either case |
| DetailPage.RequestAlwaysSent | frontend/src/pages/ArticleDetailPage.tsx:39-44 | once the guards pass a request is always sent to the content URL: a GET on a signed channel or the fallback POST carrying the counterparty |
| DetailPage.NavigationRule | frontend/src/pages/ArticleDetailPage.tsx:33-53 | the page goes home exactly when the guards fail or the answer is a non-OK 403; other non-OK answers show "Article not found" |
| DetailPage.AfterFetchOutcomes | frontend/src/pages/ArticleDetailPage.tsx:46-62 | an OK answer that parses is shown; a thrown `Error` shows its message, any other thrown value "Failed to load article" |
| DetailPage.Load | frontend/src/pages/ArticleDetailPage.tsx:21-66 | no contract of its own; specified by LoadGuards, RequestAlwaysSent, NavigationRule and AfterFetchOutcomes |
| DetailPage.AfterFetch | frontend/src/pages/ArticleDetailPage.tsx:46-62 | no contract of its own; specified by NavigationRule and AfterFetchOutcomes |
| DetailPage.Render | frontend/src/pages/ArticleDetailPage.tsx:68-89 | loading first, then the error text (or "Article not found" without an article), else the article |
| DetailPage.RenderPlainArticle | frontend/src/pages/ArticleDetailPage.tsx:170 | an article whose content is one plain line is shown as one paragraph of that line |
| DetailPage.DetailState.constructor | frontend/src/pages/ArticleDetailPage.tsx:17-19 | on mount: no article, loading, no error |
| DetailPage.DetailState.FetchArticle | frontend/src/pages/ArticleDetailPage.tsx:21-66 | loading always ends, and the run's ending alone decides whether the error, the article or the navigation changes |
| DetailPage.RouteAsWrittenAlwaysHome | frontend/src/App.tsx:210-219 | as mounted, the page never receives a counterparty, so every visit with an id goes home without a request |
| DetailPage.RouteShowsPurchasedArticle | frontend/src/App.tsx:210-219 | with the address passed on, a connected visitor's request is sent; the article shows exactly on an OK answer that parses, and a 403 goes home |
| Markdown.HasPrefixIsSlice | frontend/src/pages/ArticleDetailPage.tsx:130 | the character-wise prefix test agrees with comparing the slice |
| Markdown.IndexOf | frontend/src/pages/ArticleDetailPage.tsx:130 | an occurrence found lies inside the text at or after the start |
| Markdown.IndexOfFirst | frontend/src/pages/ArticleDetailPage.tsx:130 | the search finds the leftmost occurrence at or after the start, and nothing only when there is none |
| Markdown.IndexOfIs | frontend/src/pages/ArticleDetailPage.tsx:141 | an occurrence with none before it is the one the search reports |
| Markdown.SpanOf | frontend/src/pages/ArticleDetailPage.tsx:144 | a greedy run: the longest prefix whose characters all satisfy the class |
| Markdown.SpanOfExact | frontend/src/pages/ArticleDetailPage.tsx:163 | the run stops exactly at the first character outside the class |
| Markdown.NextFence | frontend/src/pages/ArticleDetailPage.tsx:130 | a block found starts with a whole fence and ends with a whole fence inside the text, the two not overlapping; NextFenceFound and NextFenceNone say which block it is |
| Markdown.NextFenceFound | frontend/src/pages/ArticleDetailPage.tsx:130 | the lazy match: both positions hold a fence, no fence lies before the first, and none lies between the two |
| Markdown.NextFenceNone | frontend/src/pages/ArticleDetailPage.tsx:130 | no block is found exactly when no fence is followed, without overlap, by another fence |
| Markdown.BlocksFromStep | frontend/src/pages/ArticleDetailPage.tsx:131-132 | the first pushed block is the one numbered by the current count, the rest follow it |
| Markdown.FenceRestore | frontend/src/pages/ArticleDetailPage.tsx:130-133 | a placeholder restored as its block between fences gives back the text the block was cut from |
| Markdown.ScanRoundTrip | frontend/src/pages/ArticleDetailPage.tsx:130-133 | restoring every placeholder numbered from n as its block between fences gives back the scanned text |
| Markdown.FenceRoundTrip | frontend/src/pages/ArticleDetailPage.tsx:128-133 | the extraction loses nothing: the text and the pushed blocks restore the markdown (for text without `@`) |
| Markdown.SingleFence | frontend/src/pages/ArticleDetailPage.tsx:130-133 | a single fenced block becomes placeholder 0 and is the only block pushed |
| Markdown.FenceText | frontend/src/pages/ArticleDetailPage.tsx:130-133 | no contract of its own; specified by ScanRoundTrip and SingleFence |
| Markdown.FenceBlocks | frontend/src/pages/ArticleDetailPage.tsx:130-132 | no contract of its own; specified by ScanRoundTrip and SingleFence |
| Markdown.ExtractFences | frontend/src/pages/ArticleDetailPage.tsx:128-133 | no contract of its own; specified by FenceRoundTrip and SingleFence |
| Markdown.PlaceholderAt | frontend/src/pages/ArticleDetailPage.tsx:163 | a placeholder match covers at least its 14 fixed characters and lies inside the text |
| Markdown.MarkerThen | frontend/src/pages/ArticleDetailPage.tsx:163 | the marker is recognised, and what follows it is read next |
| Markdown.DigitsThen | frontend/src/pages/ArticleDetailPage.tsx:163 | `(\d+)@@` takes the whole run of digits |
| Markdown.PlaceholderRead | frontend/src/pages/ArticleDetailPage.tsx:132 | a written placeholder is read back whole, as the index it was written with |
| Markdown.RestorePlaceholder | frontend/src/pages/ArticleDetailPage.tsx:163-166 | a placeholder at the front becomes its block's rendering (`codeBlocks[k] \|\| ''`) |
| Markdown.RestoreNoAt | frontend/src/pages/ArticleDetailPage.tsx:163 | text without `@` is copied through by the restore |
| Markdown.RestoreNoAtAll | frontend/src/pages/ArticleDetailPage.tsx:163 | the restore leaves text without `@` unchanged |
| Markdown.RestoreAround | frontend/src/pages/ArticleDetailPage.tsx:163-166 | a placeholder after text without `@` is the next thing replaced |
| Markdown.RestoreWrapped | frontend/src/pages/ArticleDetailPage.tsx:163-166 | between texts without `@` a placeholder is the only thing the restore replaces |
| Markdown.RestoreFrom | frontend/src/pages/ArticleDetailPage.tsx:163-166 | no contract of its own; specified by RestorePlaceholder, RestoreNoAtAll, RestoreAround and RestoreWrapped |
| Markdown.CodeHtml | frontend/src/pages/ArticleDetailPage.tsx:164-165 | no contract of its own; specified by RestoreParagraph (the escaped block inside `<pre><code>`) |
| Markdown.ReplaceCharAppend | frontend/src/pages/ArticleDetailPage.tsx:135 | a global single-character replace works piecewise over a concatenation |
| Markdown.ReplaceCharAbsent | frontend/src/pages/ArticleDetailPage.tsx:135 | a text without the character is left as it is |
| Markdown.ReplaceCharRemoves | frontend/src/pages/ArticleDetailPage.tsx:134-137 | after the replace no occurrence is left when the replacement has none |
| Markdown.EscapeHtmlPerChar | frontend/src/pages/ArticleDetailPage.tsx:134-137 | the three passes, `&` first, amount to escaping each character on its own |
| Markdown.EscapeOne | frontend/src/pages/ArticleDetailPage.tsx:134-137 | the three passes turn one character into its entity |
| Markdown.EscapeHtmlNoTags | frontend/src/pages/ArticleDetailPage.tsx:134-137 | escaped text holds no `<` and no `>` |
| Markdown.EscapeLtStaysOut | frontend/src/pages/ArticleDetailPage.tsx:136-137 | the `>` pass never brings a `<` back |
| Markdown.UnescapeEscape | frontend/src/pages/ArticleDetailPage.tsx:134-137 | reading the entities back gives the original text |
| Markdown.UnescapeEach | frontend/src/pages/ArticleDetailPage.tsx:134-137 | per-character escaping reads back as the text |
| Markdown.EscapeHtml | frontend/src/pages/ArticleDetailPage.tsx:134-137 | no contract of its own; specified by EscapeHtmlPerChar, EscapeHtmlNoTags and UnescapeEscape |
| Markdown.BacktickAt | frontend/src/pages/ArticleDetailPage.tsx:141 | the next backtick at or after a position is the first one there |
| Markdown.InlineCodeNone | frontend/src/pages/ArticleDetailPage.tsx:141 | text without backticks holds no inline code |
| Markdown.InlineCodeSpan | frontend/src/pages/ArticleDetailPage.tsx:141 | a backtick, a non-empty run without backticks and a backtick become `<code>…</code>`, and the scan resumes after it |
| Markdown.InlineCode | frontend/src/pages/ArticleDetailPage.tsx:141 | no contract of its own; specified by InlineCodeNone and InlineCodeSpan |
| Markdown.HeadingFromUnchanged | frontend/src/pages/ArticleDetailPage.tsx:143-149 | where no line starts with the hashes a pass changes nothing |
| Markdown.HeadingPassUnchanged | frontend/src/pages/ArticleDetailPage.tsx:143-149 | a line not starting with a pass's hashes is left alone by it |
| Markdown.HeadingHtmlShape | frontend/src/pages/ArticleDetailPage.tsx:143-149 | a heading element is one line starting with `<` |
| Markdown.HeadingPassOn | frontend/src/pages/ArticleDetailPage.tsx:143-149 | the pass for n hashes turns such a line into `<hn>text</hn>` |
| Markdown.HeadingPassesBelow | frontend/src/pages/ArticleDetailPage.tsx:143-149 | the later passes for fewer hashes leave the heading element alone |
| Markdown.HeadingPassesLine | frontend/src/pages/ArticleDetailPage.tsx:143-149 | passes from m hashes down turn an n-hash line (n <= m) into its heading |
| Markdown.HeadingOfLine | frontend/src/pages/ArticleDetailPage.tsx:143-149 | a line of n hashes (1 to 6) becomes `<hn>`, longest marker first, so `###` gives h3 and not h1 |
| Markdown.HeadingFrom | frontend/src/pages/ArticleDetailPage.tsx:143-149 | no contract of its own; specified by HeadingFromUnchanged and HeadingPassOn |
| Markdown.HeadingPasses | frontend/src/pages/ArticleDetailPage.tsx:143-149 | no contract of its own; specified by HeadingPassesBelow, HeadingPassesLine and HeadingPassesNoHash |
| Markdown.Headings | frontend/src/pages/ArticleDetailPage.tsx:143-149 | no contract of its own; specified by HeadingOfLine and HeadingsNoHash |
| Markdown.HeadingPassesNoHash | frontend/src/pages/ArticleDetailPage.tsx:143-149 | where no line starts with `#`, the passes from m hashes down change nothing |
| Markdown.HeadingsNoHash | frontend/src/pages/ArticleDetailPage.tsx:143-149 | a text no line of which starts with `#` leaves the six heading passes unchanged |
| Markdown.ListBlock | frontend/src/pages/ArticleDetailPage.tsx:151 | a run of item lines starts with one item and covers at least `- x` |
| Markdown.ListBlockLine | frontend/src/pages/ArticleDetailPage.tsx:151 | a single item line is a run of one item covering the line |
| Markdown.LineThenBreak | frontend/src/pages/ArticleDetailPage.tsx:151 | `.+` stops at the newline after a line |
| Markdown.ListBlockCons | frontend/src/pages/ArticleDetailPage.tsx:151 | an item line, a newline and a run form one run with that line first |
| Markdown.ListBlockOfLines | frontend/src/pages/ArticleDetailPage.tsx:151 | item lines joined by newlines are read as one run of exactly those lines |
| Markdown.ListOfLines | frontend/src/pages/ArticleDetailPage.tsx:151-154 | a maximal run of `- ` lines becomes one `<ul>` with one trimmed `<li>` per line |
| Markdown.ListFromUnchanged | frontend/src/pages/ArticleDetailPage.tsx:151 | without newlines, and not starting with an item, the list pass changes nothing |
| Markdown.ListFromSkip | frontend/src/pages/ArticleDetailPage.tsx:151 | where no match starts in a stretch, the list pass copies that stretch unchanged and goes on after it |
| Markdown.NoMatchWithoutDash | frontend/src/pages/ArticleDetailPage.tsx:151 | no match of `(?:^\|\n)- ` starts where no line begins with `-` |
| Markdown.ListFromNoDash | frontend/src/pages/ArticleDetailPage.tsx:151-154 | a text no line of which starts with `-` leaves the list pass unchanged |
| Markdown.ListFrom | frontend/src/pages/ArticleDetailPage.tsx:151-154 | no contract of its own; specified by ListOfLines, ListFromUnchanged, ListFromSkip and ListFromNoDash |
| Markdown.StripBullet | frontend/src/pages/ArticleDetailPage.tsx:152 | no contract of its own; specified through ListOfLines (the `- ` and the spaces after it are dropped) |
| Markdown.ItemsHtml | frontend/src/pages/ArticleDetailPage.tsx:152-153 | no contract of its own; specified through ListOfLines (one trimmed `<li>` per line, in order) |
| Markdown.SplitBlankRuns | frontend/src/pages/ArticleDetailPage.tsx:156 | the split gives at least one piece; SplitBlankRunsJoin and SplitPiecesWhole say what the pieces are |
| Markdown.FirstBlankRun | frontend/src/pages/ArticleDetailPage.tsx:156 | at the leftmost `\n\n` the separator is the whole run of newlines there, at least two long, and the text is the part before it, the run and the part after it |
| Markdown.SplitBlankRunsJoin | frontend/src/pages/ArticleDetailPage.tsx:156 | the pieces joined by the removed runs give back the text, with one run between each two pieces and every run at least two newlines |
| Markdown.SplitPiecesWhole | frontend/src/pages/ArticleDetailPage.tsx:156 | each run is taken whole: no piece before a separator ends with a newline and no piece after one starts with a newline |
| Markdown.SplitPartsNoBlankLine | frontend/src/pages/ArticleDetailPage.tsx:156 | no piece holds two newlines in a row |
| Markdown.SplitSingle | frontend/src/pages/ArticleDetailPage.tsx:156 | text without two newlines in a row is a single piece |
| Markdown.ParagraphsOf | frontend/src/pages/ArticleDetailPage.tsx:156-160 | never more paragraphs than pieces; ParagraphsOfPiece and ParagraphsOfAppend say which pieces are kept and how |
| Markdown.ParagraphsOfAppend | frontend/src/pages/ArticleDetailPage.tsx:156-160 | the map, filter and wrap steps work piece by piece, keeping the order of the pieces |
| Markdown.ParagraphsOfPiece | frontend/src/pages/ArticleDetailPage.tsx:156-160 | a piece that trims to "" is dropped (`filter(Boolean)`); any other becomes its trimmed text as a block or paragraph |
| Markdown.Paragraph | frontend/src/pages/ArticleDetailPage.tsx:157-160 | no contract of its own; specified by ParagraphOneLine (a non-block piece becomes `<p>` with `<br/>` for each newline) |
| Markdown.IsBlock | frontend/src/pages/ArticleDetailPage.tsx:158 | no contract of its own; the block test used by Paragraph and specified through ParagraphOneLine and FencedBlockDocument |
| Markdown.Paragraphs | frontend/src/pages/ArticleDetailPage.tsx:156-161 | no contract of its own; specified by SplitBlankRunsJoin, ParagraphsOfAppend, ParagraphsOfPiece and PlainParagraphs |
| Markdown.ParagraphOneLine | frontend/src/pages/ArticleDetailPage.tsx:159 | a non-block piece becomes `<p>` with each newline as `<br/>` |
| Markdown.ParagraphsNonEmpty | frontend/src/pages/ArticleDetailPage.tsx:156 | no kept paragraph is empty |
| Markdown.NoFenceInPlain | frontend/src/pages/ArticleDetailPage.tsx:130 | plain text holds no fenced block |
| Markdown.PlainHasNo | frontend/src/pages/ArticleDetailPage.tsx:134-154 | a plain line holds none of the characters the passes act on |
| Markdown.PlainPasses | frontend/src/pages/ArticleDetailPage.tsx:134-154 | the escaping, inline-code, heading and list passes leave a plain line as it is |
| Markdown.PlainParagraphs | frontend/src/pages/ArticleDetailPage.tsx:156-161 | a plain line is one paragraph |
| Markdown.PlainRestore | frontend/src/pages/ArticleDetailPage.tsx:163-166 | the restore leaves a plain paragraph as it is |
| Markdown.PlainLineParagraph | frontend/src/pages/ArticleDetailPage.tsx:126-168 | a plain line renders as `<p>line</p>` |
| Markdown.PlaceholderPasses | frontend/src/pages/ArticleDetailPage.tsx:139-154 | a placeholder is made only of characters that the escaping, inline-code, heading and list passes leave alone |
| Markdown.PlaceholderParagraph | frontend/src/pages/ArticleDetailPage.tsx:156-160 | a text that is one placeholder becomes a paragraph holding it |
| Markdown.RestoreParagraph | frontend/src/pages/ArticleDetailPage.tsx:163-166 | a paragraph holding a placeholder becomes a paragraph holding the escaped block in `<pre><code>` |
| Markdown.PlaceholderRenders | frontend/src/pages/ArticleDetailPage.tsx:139-166 | a text that is one placeholder renders as a paragraph holding its rendered block |
| Markdown.FencedBlockDocument | frontend/src/pages/ArticleDetailPage.tsx:126-168 | a document that is one fenced block renders as its escaped text in `<pre><code>`, wrapped in `<p>` because the block test runs before the restore |
| Markdown.MarkdownToHtml | frontend/src/pages/ArticleDetailPage.tsx:126-168 | reassigning `md` step by step gives the renderer's result, and empty input gives "" |
| Markdown.RenderMarkdown | frontend/src/pages/ArticleDetailPage.tsx:126-168 | no contract of its own; specified by MarkdownToHtml, PlainLineParagraph and FencedBlockDocument |

## Left out

- HTTP routing, Express and MongoDB are not modelled. The collections are
  in-memory sequences. A database failure is not modelled, so the 500
  answers come only from schema validation and the unique index.
- The document fields Mongoose adds and no core code reads are not
  modelled: `_id`, `__v`, an article's `updatedAt`, and a purchase's
  `createdAt` and `updatedAt` (backend/src/models/Purchase.ts:44). So the
  records `GET /articles/purchases/:walletAddress` sends
  (backend/src/routes/protected.ts:156) carry more fields than the model's
  `Purchase`.
- The BRC-104 middleware's signature check is left out. Its only output,
  the optional identity key, is an input of `ContentGet`.
- The SDK primitives are parameters of the model, not implementations:
  `PublicKey.fromString`, `hash160`, `sha256`, `P2PKH().lock`,
  `createAction`, `WalletClient.isAuthenticated`/`getPublicKey` and the
  `window.bsv` members.
- A failure of `P2PKH().lock` is modelled as an error message. The page
  shows "Payment failed" for a thrown value that is not an `Error`
  (frontend/src/pages/HomePage.tsx:194). The model does not distinguish
  that case.
- `findOne` returns some matching document, and the database leaves the
  order of records with equal sort keys open. The model makes the first
  choice deterministic: the first match in the collection's sequence order.
  So with several verified purchases of one article by one identity,
  `ContentGetDecision` grants with the first record's txid. The `Ordering`
  contracts leave ties open.
- The network (`fetch`, `response.json()`) is a parameter. Every handler is
  one sequential step over explicit state. Races between overlapping
  requests are not modelled, nor is React's batching of state updates or
  the stale `articles` closure.
- `GET /articles/:id/info` (backend/src/routes/protected.ts:286-330) is not
  modelled. It returns fixed descriptive text about the signed endpoint
  and makes no decision beyond the article lookup.
- The debug listing of the purchases route
  (backend/src/routes/protected.ts:145-154) is left out, along with all
  `console` logging and `alert`. They only log.
- `onWalletEvent` (frontend/src/utils/wallet.ts:139-145) is left out. It
  only registers a callback with the wallet.
- Markdown.ExtractFences models the fence `replace` with its pushing
  callback as two functions on values: the text, and the list of pushed
  blocks in order. The in-place growth of `codeBlocks` during the scan is
  represented only by its final contents.
- Markdown.FenceRoundTrip is stated for markdown without `@`. Text that
  already contains something shaped like a placeholder would be replaced
  by the restore, which is a real property of the renderer.
- Markdown.HeadingOfLine is stated for a text that is exactly one heading
  line. That a heading line inside a longer text becomes its heading with
  the lines around it unchanged is not proved: the `\s*` after the hashes
  may cross line ends, so such a statement needs conditions on the
  neighbouring lines. HeadingsNoHash covers text without heading lines.
- Markdown.ListOfLines is stated for a text that is exactly one run of item
  lines. That such a run inside a longer text becomes one `<ul>` with the
  text around it unchanged is not proved: the match takes the `\n` before
  the run and the outcome depends on the line after it. ListFromNoDash and
  ListFromSkip cover text without item lines.
- Session.RestoreDecision: the stored timestamp is an integer. A stored
  session without a `timestamp` (frontend/src/App.tsx:96) gives `NaN`, the
  comparison is false, and such a session never expires; the model cannot
  express that case.
- Address.PublicKeyToAddress: the only exception modelled is a key the SDK
  rejects. The hash functions are total, so a failure inside them is not
  modelled.
- Strings are sequences of Unicode characters. `charCodeAt` and
  `str.length` are computed as UTF-16 code units, but lone surrogates are
  not representable.
- Prices, word counts and amounts are integers. Fractional and `NaN`
  values of JSON numbers are not modelled.
- The UI components, `ArticleCard`'s floating-point USD estimate and
  `seedData.ts` are outside the model, as are `ContentStorage.ts` and
  `ContentLookupServiceFactory.ts`, which are unimplemented stubs.

## Findings

| source | as written | input that shows it | evidently intended | confidence | as-written member | corrected member |
|---|---|---|---|---|---|---|
| frontend/src/App.tsx:210-219 | the route passes `walletAddress`, but the article page reads a `counterparty` prop (frontend/src/pages/ArticleDetailPage.tsx:10-14, 33), which is therefore undefined | any visit to `/articles/{id}` while connected with a wallet | the page's counterparty is the connected wallet's address, so a purchased article loads | not executed | DetailPage.RouteAsWrittenAlwaysHome | DetailPage.RouteShowsPurchasedArticle |
