/**
 * The helpers around the injected desktop wallet object `window.bsv`: connect,
 * disconnect, send a payment, read the balance and the network, and request
 * or revoke an auth token. Each member of the wallet object is either absent
 * (not a function) or present, and a present one is given as what awaiting
 * it yields for the arguments it receives.
 */
module Wallet {
  import opened Wrappers
  import opened JsText

  /** A JavaScript value as far as `!!` needs it. */
  datatype JsValue = Undefined | Null | Bool(b: bool) | Num(n: int) | Str(s: string) | Object

  /** `!!v`. */
  predicate JsTruthy(v: JsValue) {
    match v
    case Undefined => false
    case Null => false
    case Bool(b) => b
    case Num(n) => n != 0
    case Str(s) => s != ""
    case Object => true
  }

  /** What `connect()` resolves to, when it resolves to an object. */
  datatype Connection = Connection(address: Option<string>, pubkey: Option<string>)

  datatype PaymentOutput = PaymentOutput(to: string, satoshis: int)

  /** A payment request; `satoshis` is `None` when the value is not of type number. */
  datatype PaymentRequest = PaymentRequest(
    satoshis: Option<int>, data: Option<seq<string>>, outputs: Option<seq<PaymentOutput>>)

  /** The parameters handed to `send`; a `None` member is not set on the object. */
  datatype SendParams = SendParams(
    satoshis: Option<int>, outputs: Option<seq<PaymentOutput>>, data: Option<seq<string>>)

  /** What `send` resolves to, when it resolves to an object. */
  datatype SendResult = SendResult(txid: Option<string>, rawtx: Option<string>)

  datatype PaymentResponse = PaymentResponse(txid: string, rawtx: string)

  /** What an auth request resolves to, when it resolves to an object. */
  datatype AuthReply = AuthReply(token: Option<string>, expiry: Option<string>, address: Option<string>)

  datatype AuthResponse = AuthResponse(token: string, expiry: Option<string>, address: Option<string>)

  /** The argument of the object form's `revoke`: `{ token }`, or `undefined`. */
  datatype RevokeArg = TokenObject(token: string) | NoToken

  /** The `auth` member: absent (or null), an object with optional `request`/`revoke`, or a function with an optional `revoke`. */
  datatype AuthMember =
    | NoAuth
    | AuthObject(request: Option<seq<string> -> Outcome<Option<AuthReply>>>, revoke: Option<RevokeArg -> Outcome<JsValue>>)
    | AuthFunction(call: seq<string> -> Outcome<Option<AuthReply>>, fnRevoke: Option<Option<string> -> Outcome<JsValue>>)

  /** The wallet object's members. */
  datatype BsvWallet = BsvWallet(
    connect: Option<Outcome<Option<Connection>>>,
    disconnect: Option<Outcome<()>>,
    send: Option<SendParams -> Outcome<Option<SendResult>>>,
    getBalance: Option<Outcome<int>>,
    getNetwork: Option<Outcome<string>>,
    auth: AuthMember,
    revoke: Option<Option<string> -> Outcome<JsValue>>)

  /**
   * `window.bsv` as the helpers see it: missing (no window, or `undefined`),
   * `null` (which `typeof` still calls an object), or a wallet.
   */
  datatype Injected = Missing | NullWallet | Present(wallet: BsvWallet)

  /** `isWalletAvailable()`. */
  predicate IsWalletAvailable(env: Injected) {
    !env.Missing?
  }

  function Fail<T>(message: string): Outcome<T> {
    Threw(ErrorObject(message))
  }

  datatype WalletInfo = WalletInfo(address: string, publicKey: string, isConnected: bool)

  /** `connectWallet`. */
  function ConnectWallet(env: Injected): (r: Outcome<WalletInfo>)
    ensures r.Returned? ==> r.value.isConnected && r.value.address != ""
  {
    if !IsWalletAvailable(env) then Fail("BSV Desktop wallet not found. Please install BSV Desktop.")
    else if env.NullWallet? || env.wallet.connect.None? then Fail("Wallet connect API not available")
    else
      match env.wallet.connect.value
      case Threw(t) => Threw(t)
      case Returned(c) =>
        if c.None? || !Truthy(c.value.address) then Fail("Failed to connect to wallet")
        else Returned(WalletInfo(c.value.address.value, c.value.pubkey.GetOr(""), true))
  }

  /**
   * Connecting fails, in this order, without a wallet, without a `connect`
   * function, and with a connection that has no address; otherwise it
   * reports the connection's address and key, the key defaulting to "".
   */
  lemma ConnectWalletOutcome(env: Injected)
    ensures env.Missing? ==> ConnectWallet(env) == Fail("BSV Desktop wallet not found. Please install BSV Desktop.")
    ensures env.NullWallet? || (env.Present? && env.wallet.connect.None?) ==>
      ConnectWallet(env) == Fail("Wallet connect API not available")
    ensures env.Present? && env.wallet.connect == Some(Returned(None)) ==>
      ConnectWallet(env) == Fail("Failed to connect to wallet")
    ensures (env.Present? && env.wallet.connect.Some? && env.wallet.connect.value.Returned?
             && env.wallet.connect.value.value.Some?) ==>
        var c := env.wallet.connect.value.value.value;
        && (ConnectWallet(env).Returned? <==> Truthy(c.address))
        && (Truthy(c.address) ==>
              ConnectWallet(env) == Returned(WalletInfo(c.address.value, if c.pubkey.Some? then c.pubkey.value else "", true)))
  {
  }

  /** `disconnectWallet`: calls `disconnect` when it is there; `true` says whether it was called. */
  function DisconnectWallet(env: Injected): (r: Outcome<bool>)
    ensures r == Returned(true) <==> env.Present? && env.wallet.disconnect == Some(Returned(()))
    ensures r == Returned(false) <==> !(env.Present? && env.wallet.disconnect.Some?)
  {
    if !IsWalletAvailable(env) || env.NullWallet? || env.wallet.disconnect.None? then Returned(false)
    else
      match env.wallet.disconnect.value
      case Threw(t) => Threw(t)
      case Returned(u) => assert u == (); Returned(true)
  }

  /** The `send` parameters, set member by member as the request allows. */
  method BuildSendParams(request: PaymentRequest) returns (params: SendParams)
    ensures params.satoshis == request.satoshis
    ensures params.outputs.Some? <==> request.outputs.Some? && |request.outputs.value| > 0
    ensures params.outputs.Some? ==> params.outputs == request.outputs
    ensures params.data.Some? <==> request.data.Some? && |request.data.value| > 0
    ensures params.data.Some? ==> params.data == request.data
  {
    params := SendParams(None, None, None);
    if request.satoshis.Some? {
      params := params.(satoshis := request.satoshis);
    }
    if request.outputs.Some? && |request.outputs.value| > 0 {
      params := params.(outputs := request.outputs);
    }
    if request.data.Some? && |request.data.value| > 0 {
      params := params.(data := request.data);
    }
  }

  /**
   * `sendPayment`: with a wallet that can send, the one call to `send`
   * receives the built parameters; a result without a txid is an error, and
   * a missing raw transaction becomes "".
   */
  method SendPayment(env: Injected, request: PaymentRequest) returns (r: Outcome<PaymentResponse>, sent: Option<SendParams>)
    ensures env.Missing? ==> r == Fail("BSV Desktop wallet not found") && sent.None?
    ensures env.NullWallet? || (env.Present? && env.wallet.send.None?) ==>
      r == Fail("Wallet send API not available") && sent.None?
    ensures env.Present? && env.wallet.send.Some? ==> sent.Some?
    ensures sent.Some? ==>
      && sent.value.satoshis == request.satoshis
      && (sent.value.outputs.Some? <==> request.outputs.Some? && |request.outputs.value| > 0)
      && (sent.value.data.Some? <==> request.data.Some? && |request.data.value| > 0)
      && (sent.value.outputs.Some? ==> sent.value.outputs == request.outputs)
      && (sent.value.data.Some? ==> sent.value.data == request.data)
    ensures sent.Some? ==>
      match env.wallet.send.value(sent.value)
      case Threw(t) => r == Threw(t)
      case Returned(res) =>
        if res.None? || !Truthy(res.value.txid) then r == Fail("Payment failed: no transaction id")
        else r == Returned(PaymentResponse(res.value.txid.value, if Truthy(res.value.rawtx) then res.value.rawtx.value else ""))
    ensures r.Returned? ==> r.value.txid != ""
  {
    sent := None;
    if !IsWalletAvailable(env) {
      return Fail("BSV Desktop wallet not found"), sent;
    }
    if env.NullWallet? || env.wallet.send.None? {
      return Fail("Wallet send API not available"), sent;
    }
    var params := BuildSendParams(request);
    sent := Some(params);
    var result := env.wallet.send.value(params);
    if result.Threw? {
      return Threw(result.thrown), sent;
    }
    var res := result.value;
    if res.None? || !Truthy(res.value.txid) {
      return Fail("Payment failed: no transaction id"), sent;
    }
    r := Returned(PaymentResponse(res.value.txid.value, if Truthy(res.value.rawtx) then res.value.rawtx.value else ""));
  }

  /** `getBalance`: the wallet's balance, 0 when it does not expose one. */
  function GetBalance(env: Injected): Outcome<int> {
    if !IsWalletAvailable(env) then Fail("BSV Desktop wallet not found")
    else if env.Present? && env.wallet.getBalance.Some? then env.wallet.getBalance.value
    else Returned(0)
  }

  /** `getNetwork`: "unknown" without a wallet, "mainnet" when the wallet does not say. */
  function GetNetwork(env: Injected): Outcome<string> {
    if !IsWalletAvailable(env) then Returned("unknown")
    else if env.Present? && env.wallet.getNetwork.Some? then env.wallet.getNetwork.value
    else Returned("mainnet")
  }

  /** The balance throws only without a wallet and is 0 when not exposed; the network has its two defaults. */
  lemma BalanceAndNetworkDefaults(env: Injected)
    ensures GetBalance(env).Threw? <==> env.Missing? || (env.Present? && env.wallet.getBalance.Some? && env.wallet.getBalance.value.Threw?)
    ensures env.NullWallet? || (env.Present? && env.wallet.getBalance.None?) ==> GetBalance(env) == Returned(0)
    ensures env.Missing? ==> GetNetwork(env) == Returned("unknown")
    ensures env.NullWallet? || (env.Present? && env.wallet.getNetwork.None?) ==> GetNetwork(env) == Returned("mainnet")
    ensures env.Present? && env.wallet.getNetwork.Some? ==> GetNetwork(env) == env.wallet.getNetwork.value
  {
  }

  /** The token check shared by both auth forms. */
  function AuthResult(answer: Outcome<Option<AuthReply>>): (r: Outcome<AuthResponse>)
    ensures r.Returned? ==> r.value.token != ""
  {
    match answer
    case Threw(t) => Threw(t)
    case Returned(res) =>
      if res.None? || !Truthy(res.value.token) then Fail("Auth request failed: no token returned")
      else Returned(AuthResponse(res.value.token.value, res.value.expiry, res.value.address))
  }

  /** `requestAuth(scopes)`, the scopes defaulting to `["auth"]`. */
  function RequestAuth(env: Injected, scopes: Option<seq<string>>): Outcome<AuthResponse> {
    var s := scopes.GetOr(["auth"]);
    if !IsWalletAvailable(env) then Fail("BSV Desktop wallet not found")
    else if env.NullWallet? then Fail("Wallet object not available")
    else
      match env.wallet.auth
      case AuthObject(request, _) =>
        if request.Some? then AuthResult(request.value(s)) else Fail("Wallet does not support auth requests")
      case AuthFunction(call, _) => AuthResult(call(s))
      case NoAuth => Fail("Wallet does not support auth requests")
  }

  /**
   * Without a wallet, or with a null one, the request throws before any call.
   * Otherwise the object form's `request` is used when there is one; an auth object
   * without it is not called as a function but is refused; a function form
   * is called with the scopes; a reply without a token is an error.
   */
  lemma RequestAuthOrder(env: Injected, scopes: Option<seq<string>>)
    ensures env.Missing? ==> RequestAuth(env, scopes) == Fail("BSV Desktop wallet not found")
    ensures env.NullWallet? ==> RequestAuth(env, scopes) == Fail("Wallet object not available")
    ensures env.Present? ==> var s := if scopes.Some? then scopes.value else ["auth"];
      var r := RequestAuth(env, scopes);
      && (env.wallet.auth.AuthObject? && env.wallet.auth.request.Some? ==> r == AuthResult(env.wallet.auth.request.value(s)))
      && (env.wallet.auth.AuthFunction? ==> r == AuthResult(env.wallet.auth.call(s)))
      && (env.wallet.auth.NoAuth? || (env.wallet.auth.AuthObject? && env.wallet.auth.request.None?) ==>
            r == Fail("Wallet does not support auth requests"))
      && (r.Returned? ==> r.value.token != "")
  {
  }

  /** `!!(await f(arg))`. */
  function Coerced(answer: Outcome<JsValue>): Outcome<bool> {
    match answer
    case Threw(t) => Threw(t)
    case Returned(v) => Returned(JsTruthy(v))
  }

  /** `revokeAuth(token)`: the object form's `revoke`, then the function form's, then the top-level one. */
  function RevokeAuth(env: Injected, token: Option<string>): Outcome<bool> {
    if !IsWalletAvailable(env) then Fail("BSV Desktop wallet not found")
    else if env.NullWallet? then Fail("Wallet object not available")
    else
      var w := env.wallet;
      if w.auth.AuthObject? && w.auth.revoke.Some? then
        Coerced(w.auth.revoke.value(if Truthy(token) then TokenObject(token.value) else NoToken))
      else if w.auth.AuthFunction? && w.auth.fnRevoke.Some? then Coerced(w.auth.fnRevoke.value(token))
      else if w.revoke.Some? then Coerced(w.revoke.value(token))
      else Fail("Wallet does not support auth revoke")
  }

  /**
   * Without a wallet, or with a null one, revocation throws before any call.
   * Otherwise it tries the three `revoke`s in order and uses the first present;
   * the object form gets `{ token }` for a non-empty token and `undefined`
   * otherwise; the answer is reduced to its truthiness; with none present the
   * call throws.
   */
  lemma RevokeAuthOrder(env: Injected, token: Option<string>)
    ensures env.Missing? ==> RevokeAuth(env, token) == Fail("BSV Desktop wallet not found")
    ensures env.NullWallet? ==> RevokeAuth(env, token) == Fail("Wallet object not available")
    ensures env.Present? ==> var w := env.wallet;
      var r := RevokeAuth(env, token);
      && (w.auth.AuthObject? && w.auth.revoke.Some? ==>
            r == Coerced(w.auth.revoke.value(if Truthy(token) then TokenObject(token.value) else NoToken)))
      && (!(w.auth.AuthObject? && w.auth.revoke.Some?) && w.auth.AuthFunction? && w.auth.fnRevoke.Some? ==>
            r == Coerced(w.auth.fnRevoke.value(token)))
      && (!(w.auth.AuthObject? && w.auth.revoke.Some?) && !(w.auth.AuthFunction? && w.auth.fnRevoke.Some?) ==>
            r == if w.revoke.Some? then Coerced(w.revoke.value(token)) else Fail("Wallet does not support auth revoke"))
  {
  }

  /** A revoke answering with a falsy value (`undefined`, 0, "") reports `false`, a truthy one `true`. */
  lemma CoercedIsTruthiness(v: JsValue)
    ensures Coerced(Returned(v)) == Returned(JsTruthy(v))
    ensures JsTruthy(v) <==> !(v.Undefined? || v.Null? || v == Bool(false) || v == Num(0) || v == Str(""))
  {
  }
}
