/**
 * The application shell's wallet session: the stored session and its
 * 30-minute expiry, restoring it on start-up, connecting and disconnecting.
 * The browser's `localStorage` slot is the field `storage`; what the wallet
 * answers (`isAuthenticated` followed by `getPublicKey`) is a parameter.
 */
module Session {
  import opened Wrappers
  import opened Address

  const SessionDuration: int := 30 * 60 * 1000

  /** The stored session: the identity public key and when it was stored. */
  datatype WalletSession = WalletSession(walletAddress: string, timestamp: int)

  /** The session slot: empty, holding text `JSON.parse` rejects, or holding a session. */
  datatype StoredEntry = NoEntry | Unparsable | Stored(session: WalletSession)

  /** A session older than the duration is expired; one exactly that old is not. */
  predicate Expired(now: int, timestamp: int) {
    now - timestamp > SessionDuration
  }

  /** What the wallet answers: a failure (thrown), not authenticated, or its identity key. */
  datatype WalletProbe = ProbeFailed | NotAuthenticated | Authenticated(publicKey: string)

  /** The connected wallet client, known by its identity key. */
  datatype WalletClient = WalletClient(identityKey: string)

  datatype RestoreResult = NothingStored | Cleared | Restored(publicKey: string)

  /** The outcome of restoring the stored session. */
  function RestoreDecision(entry: StoredEntry, now: int, probe: WalletProbe): RestoreResult {
    match entry
    case NoEntry => NothingStored
    case Unparsable => Cleared
    case Stored(s) =>
      if Expired(now, s.timestamp) then Cleared
      else
        match probe
        case Authenticated(pk) => if pk == s.walletAddress then Restored(pk) else Cleared
        case _ => Cleared
  }

  /**
   * A session is restored exactly when it is stored, not expired, and the
   * wallet is authenticated with the stored key; every other path with
   * something stored removes it.
   */
  lemma RestoreOnlyMatching(entry: StoredEntry, now: int, probe: WalletProbe)
    ensures RestoreDecision(entry, now, probe).Restored? <==>
      && entry.Stored? && !Expired(now, entry.session.timestamp)
      && probe == Authenticated(entry.session.walletAddress)
    ensures RestoreDecision(entry, now, probe).Restored? ==>
      RestoreDecision(entry, now, probe).publicKey == entry.session.walletAddress
    ensures RestoreDecision(entry, now, probe).NothingStored? <==> entry == NoEntry
  {
  }

  /** The expiry boundary: valid at exactly 30 minutes, expired one millisecond later. */
  lemma ExpiryBoundary(timestamp: int)
    ensures !Expired(timestamp + 30 * 60 * 1000, timestamp)
    ensures Expired(timestamp + 30 * 60 * 1000 + 1, timestamp)
  {
  }

  /** The shell's state: the React state variables and the session slot. */
  class AppState {
    const crypto: Crypto
    var connected: bool
    var wallet: Option<WalletClient>
    var walletAddress: string
    var restoring: bool
    var loading: bool
    var storage: StoredEntry

    /**
     * When connected, the wallet is set and the shown address is derived
     * from its key, and a stored session belongs to that key.
     */
    ghost predicate Valid()
      reads this
    {
      && (connected ==> wallet.Some? && walletAddress == AddressOf(crypto, wallet.value.identityKey))
      && (connected && storage.Stored? ==> storage.session.walletAddress == wallet.value.identityKey)
    }

    /** The state on mount, before the restore step has run. */
    constructor (crypto: Crypto, storage: StoredEntry)
      ensures Valid()
      ensures this.crypto == crypto && this.storage == storage
      ensures !connected && wallet.None? && walletAddress == "" && restoring && !loading
    {
      this.crypto := crypto;
      this.storage := storage;
      connected := false;
      wallet := None;
      walletAddress := "";
      restoring := true;
      loading := false;
    }

    /** `restoreSession`. */
    method Restore(now: int, probe: WalletProbe)
      requires Valid()
      modifies this
      ensures Valid()
      ensures !restoring && loading == old(loading)
      ensures match RestoreDecision(old(storage), now, probe)
        case NothingStored =>
          storage == old(storage) && connected == old(connected)
          && wallet == old(wallet) && walletAddress == old(walletAddress)
        case Cleared =>
          storage == NoEntry && connected == old(connected)
          && wallet == old(wallet) && walletAddress == old(walletAddress)
        case Restored(pk) =>
          storage == old(storage) && connected
          && wallet == Some(WalletClient(pk)) && walletAddress == AddressOf(crypto, pk)
    {
      match storage {
        case NoEntry =>
          restoring := false;
        case Unparsable =>
          storage := NoEntry;
          restoring := false;
        case Stored(session) =>
          if Expired(now, session.timestamp) {
            storage := NoEntry;
            restoring := false;
            return;
          }
          match probe {
            case Authenticated(publicKey) =>
              var address := PublicKeyToAddress(crypto, publicKey);
              if publicKey == session.walletAddress {
                wallet := Some(WalletClient(publicKey));
                walletAddress := address;
                connected := true;
              } else {
                storage := NoEntry;
              }
            case _ =>
              storage := NoEntry;
          }
          restoring := false;
      }
    }

    /**
     * `handleConnectWallet`: on success it stores the public key (not the
     * derived address) with the current time; on failure it alerts and
     * clears only the connected flag.
     */
    method Connect(now: int, probe: WalletProbe) returns (alerted: bool)
      requires Valid()
      modifies this
      ensures Valid()
      ensures !loading && restoring == old(restoring)
      ensures alerted <==> !probe.Authenticated?
      ensures probe.Authenticated? ==>
        && connected && wallet == Some(WalletClient(probe.publicKey))
        && walletAddress == AddressOf(crypto, probe.publicKey)
        && storage == Stored(WalletSession(probe.publicKey, now))
      ensures !probe.Authenticated? ==>
        && !connected && wallet == old(wallet) && walletAddress == old(walletAddress)
        && storage == old(storage)
    {
      loading := true;
      match probe {
        case Authenticated(publicKey) =>
          var address := PublicKeyToAddress(crypto, publicKey);
          wallet := Some(WalletClient(publicKey));
          walletAddress := address;
          connected := true;
          storage := Stored(WalletSession(publicKey, now));
          alerted := false;
        case _ =>
          alerted := true;
          connected := false;
      }
      loading := false;
    }

    /** `handleDisconnectWallet`: clears the wallet, the address, the flag and the stored session. */
    method Disconnect()
      requires Valid()
      modifies this
      ensures Valid()
      ensures wallet.None? && walletAddress == "" && !connected && storage == NoEntry
      ensures restoring == old(restoring) && loading == old(loading)
    {
      wallet := None;
      walletAddress := "";
      connected := false;
      storage := NoEntry;
    }
  }
}
