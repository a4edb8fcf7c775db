/** The Nostr Wallet Connect client (NIP-47): URL validation, the encrypted
    request/response exchange with the wallet service, and the two wallet
    methods the bot uses. Cryptography, JSON and the relay connection are
    oracles gathered in a `WalletEnv`. */
module Nwc {
  import opened Base
  import opened Text
  import opened Nostr

  const WalletScheme: string := "nostr+walletconnect"
  const RequestKind: int := 23194
  const ResponseKind: int := 23195
  const MaxPublishAttempts: nat := 3
  const ConnectionClosed: string := "connection closed"

  /** A parsed `nostr+walletconnect://<wallet pubkey>?relay=...&secret=...` URL;
      the query keeps its key/value pairs in order. */
  datatype Url = Url(scheme: string, host: string, query: seq<(string, string)>)

  /** `url.Values.Get`: the first value given for `key`, or "" when there is none. */
  function QueryGet(query: seq<(string, string)>, key: string): (v: string)
    ensures v != "" ==> exists i :: 0 <= i < |query| && query[i] == (key, v)
    ensures (forall i :: 0 <= i < |query| ==> query[i].0 != key) ==> v == ""
    ensures |query| > 0 && query[0].0 == key ==> v == query[0].1
    ensures forall i :: FirstWithKey(query, key, i) ==> v == query[i].1
  {
    if |query| == 0 then ""
    else if query[0].0 == key then query[0].1
    else
      assert forall i :: FirstWithKey(query, key, i) ==> FirstWithKey(query[1..], key, i - 1);
      QueryGet(query[1..], key)
  }

  /** Position `i` holds the first pair whose key is `key`. */
  predicate FirstWithKey(query: seq<(string, string)>, key: string, i: int) {
    0 <= i < |query| && query[i].0 == key && forall j :: 0 <= j < i ==> query[j].0 != key
  }

  datatype NwcError =
    | InvalidUrl
    | InvalidScheme(scheme: string)
    | MissingRelay
    | MissingSecret
    | ConnectFailed(relay: string)
    | NotConnected
    | SharedSecretFailed
    | InvalidSecret
    | EncryptFailed
    | PublishFailed(message: string)
    | SubscribeFailed
    | ResponseTimeout
    | DecryptFailed
    | ParseFailed
    | PaymentFailed(code: string, message: string)
    | BalanceFailed(code: string, message: string)
    | InvalidBalance

  /** `Client`: wallet pubkey, client secret, wallet relay URL, and whether a
      relay connection is held. */
  datatype Client = Client(walletPubkey: string, secret: string, relayUrl: string, connected: bool)

  /** `NewClient`. `parsed` is `url.Parse`'s result (`None` for a parse error).
      Checks run in order: scheme, then relay, then secret. */
  function NewClient(parsed: Option<Url>): (r: Result<Client, NwcError>)
    ensures parsed.None? ==> r == Err(InvalidUrl)
    ensures parsed.Some? && parsed.value.scheme != WalletScheme ==> r == Err(InvalidScheme(parsed.value.scheme))
    ensures parsed.Some? && parsed.value.scheme == WalletScheme && QueryGet(parsed.value.query, "relay") == ""
      ==> r == Err(MissingRelay)
    ensures (parsed.Some? && parsed.value.scheme == WalletScheme && QueryGet(parsed.value.query, "relay") != ""
             && QueryGet(parsed.value.query, "secret") == "") ==> r == Err(MissingSecret)
    ensures r.Ok? <==> (parsed.Some? && parsed.value.scheme == WalletScheme
                        && QueryGet(parsed.value.query, "relay") != "" && QueryGet(parsed.value.query, "secret") != "")
    ensures r.Ok? ==> (r.value.walletPubkey == parsed.value.host
                       && r.value.relayUrl == QueryGet(parsed.value.query, "relay")
                       && r.value.secret == QueryGet(parsed.value.query, "secret")
                       && !r.value.connected)
  {
    match parsed
    case None => Err(InvalidUrl)
    case Some(u) =>
      if u.scheme != WalletScheme then Err(InvalidScheme(u.scheme))
      else
        var relay := QueryGet(u.query, "relay");
        var secret := QueryGet(u.query, "secret");
        if relay == "" then Err(MissingRelay)
        else if secret == "" then Err(MissingSecret)
        else Ok(Client(u.host, secret, relay, false))
  }

  /** A full wallet URL is accepted and its three parts are read back. */
  lemma NewClientAcceptsWellFormedUrl(pubkey: string, relay: string, secret: string)
    requires relay != "" && secret != ""
    ensures NewClient(Some(Url(WalletScheme, pubkey, [("relay", relay), ("secret", secret)])))
         == Ok(Client(pubkey, secret, relay, false))
  {
    var q := [("relay", relay), ("secret", secret)];
    assert QueryGet(q, "relay") == relay;
    assert q[1..] == [("secret", secret)];
    assert QueryGet(q, "secret") == QueryGet(q[1..], "secret");
  }

  /** `Connect`: `dialed` is whether `nostr.RelayConnect` reached the relay. */
  function Connect(c: Client, dialed: bool): (r: Result<Client, NwcError>)
    ensures r.Ok? <==> dialed
    ensures r.Ok? ==> r.value == c.(connected := true)
    ensures r.Err? ==> r.error == ConnectFailed(c.relayUrl)
  {
    if dialed then Ok(c.(connected := true)) else Err(ConnectFailed(c.relayUrl))
  }

  /** A NIP-47 request: method name and string parameters. */
  datatype Request = Request(methodName: string, params: seq<(string, string)>)

  /** A JSON value in a response's `result` object. Numbers carry their
      integer value (the float conversion is not modelled). */
  datatype JsonValue = JNumber(n: int) | JString(s: string) | JBool(b: bool) | JNull | JCompound

  datatype ResponseError = ResponseError(code: string, message: string)

  /** A decoded NIP-47 response. `result` is `None` when the field is absent. */
  datatype Response = Response(resultType: string, result: Option<map<string, JsonValue>>, error: Option<ResponseError>)

  /** A relay subscription filter. */
  datatype Filter = Filter(kinds: seq<int>, eTags: seq<string>, limit: int)

  /** The outcome of one `relay.Publish`. */
  datatype PublishResult = Published | PublishError(message: string)

  /** Only a closed connection is worth reconnecting for. */
  predicate Retryable(p: PublishResult) {
    p.PublishError? && Contains(p.message, ConnectionClosed)
  }

  /** What the publish loop did: the last publish outcome, how many publishes
      were made, and how many reconnects followed a closed connection. */
  datatype PublishRun = PublishRun(outcome: PublishResult, attempts: nat, reconnects: nat)

  /** The publish loop of `sendRequest` from attempt number `from` (0-based):
      `publish(i)` is the outcome of attempt `i`. A closed connection is
      followed by a reconnect and another attempt, up to three attempts; any
      other error, or success, ends the loop. */
  function PublishLoop(publish: nat -> PublishResult, from: nat): (r: PublishRun)
    requires from < MaxPublishAttempts
    ensures from < r.attempts <= MaxPublishAttempts
    ensures r.outcome == publish(r.attempts - 1)
    ensures forall i :: from <= i < r.attempts - 1 ==> Retryable(publish(i))
    ensures r.attempts < MaxPublishAttempts ==> !Retryable(r.outcome)
    ensures r.reconnects == r.attempts - 1 - from + (if Retryable(r.outcome) then 1 else 0)
    decreases MaxPublishAttempts - from
  {
    var outcome := publish(from);
    if Retryable(outcome) && from + 1 < MaxPublishAttempts then
      var rest := PublishLoop(publish, from + 1);
      rest.(reconnects := rest.reconnects + 1)
    else
      PublishRun(outcome, from + 1, if Retryable(outcome) then 1 else 0)
  }

  /** The loop stops at the first success, and a non-retryable error stops it at once. */
  lemma PublishStopsEarly(publish: nat -> PublishResult, k: nat)
    requires k < MaxPublishAttempts
    requires forall i :: 0 <= i < k ==> Retryable(publish(i))
    requires !Retryable(publish(k))
    ensures PublishLoop(publish, 0).attempts == k + 1
    ensures PublishLoop(publish, 0).outcome == publish(k)
  {
  }

  /** The oracles one request/response exchange consults. */
  datatype WalletEnv = WalletEnv(
    sharedSecret: Option<string>,       // nip04.ComputeSharedSecret(wallet pubkey, secret)
    ourPubkey: Option<string>,          // nostr.GetPublicKey(secret)
    encrypt: Request -> Option<string>, // json.Marshal then nip04.Encrypt
    eventId: Event -> string,           // event.GetID
    publish: nat -> PublishResult,      // outcome of the i-th publish attempt
    subscribed: bool,                   // relay.Subscribe succeeded
    reply: Option<string>,              // content of the first response event; None = 30 s timeout
    decrypt: string -> Option<string>,  // nip04.Decrypt
    parse: string -> Option<Response>)  // json.Unmarshal

  /** The request event: kind 23194, addressed to the wallet by a `p` tag. */
  function RequestEvent(c: Client, ourPubkey: string, ciphertext: string, now: int): (e: Event)
    ensures e.kind == RequestKind && e.tags == [["p", c.walletPubkey]]
    ensures e.pubkey == ourPubkey && e.content == ciphertext
  {
    Event(ourPubkey, now, RequestKind, [["p", c.walletPubkey]], ciphertext)
  }

  /** The response filter: kind 23195 events tagged with the request id, one event. */
  function ResponseFilter(requestId: string): (f: Filter)
    ensures f.kinds == [ResponseKind] && f.eTags == [requestId] && f.limit == 1
  {
    Filter([ResponseKind], [requestId], 1)
  }

  /** What `sendRequest` did: its result, the request event it built (if it
      got that far), the publish loop, and the response filter (if it subscribed). */
  datatype Exchange = Exchange(
    result: Result<Response, NwcError>,
    request: Option<Event>,
    publishing: Option<PublishRun>,
    filter: Option<Filter>)

  /** Every step before publishing succeeded: connected, shared secret and
      our pubkey computed, request encrypted. */
  predicate Encrypted(c: Client, req: Request, env: WalletEnv) {
    c.connected && env.sharedSecret.Some? && env.ourPubkey.Some? && env.encrypt(req).Some?
  }

  /** `sendRequest` at time `now`. */
  function SendRequest(c: Client, req: Request, env: WalletEnv, now: int): (x: Exchange)
    ensures !c.connected ==> x == Exchange(Err(NotConnected), None, None, None)
    ensures c.connected && env.sharedSecret.None? ==> x == Exchange(Err(SharedSecretFailed), None, None, None)
    ensures c.connected && env.sharedSecret.Some? && env.ourPubkey.None?
      ==> x == Exchange(Err(InvalidSecret), None, None, None)
    ensures c.connected && env.sharedSecret.Some? && env.ourPubkey.Some? && env.encrypt(req).None?
      ==> x == Exchange(Err(EncryptFailed), None, None, None)
    ensures x.request.Some? ==> (c.connected && env.sharedSecret.Some? && env.ourPubkey.Some? && env.encrypt(req).Some?
                                 && x.request.value == RequestEvent(c, env.ourPubkey.value, env.encrypt(req).value, now))
    ensures x.publishing.Some? ==> x.request.Some? && x.publishing.value == PublishLoop(env.publish, 0)
    ensures x.filter.Some? ==> (x.publishing.Some? && x.publishing.value.outcome == Published
                                && x.filter.value == ResponseFilter(env.eventId(x.request.value)))
    ensures x.result.Ok? ==> (x.filter.Some? && env.subscribed && env.reply.Some?
                              && env.decrypt(env.reply.value).Some?
                              && env.parse(env.decrypt(env.reply.value).value) == Some(x.result.value))
    ensures x.publishing.Some? && x.publishing.value.outcome.PublishError?
      ==> x.result == Err(PublishFailed(x.publishing.value.outcome.message))
    ensures Encrypted(c, req, env) ==>
      && x.request == Some(RequestEvent(c, env.ourPubkey.value, env.encrypt(req).value, now))
      && x.publishing == Some(PublishLoop(env.publish, 0))
    ensures Encrypted(c, req, env) && PublishLoop(env.publish, 0).outcome == Published ==>
      && x.filter.Some?
      && (!env.subscribed ==> x.result == Err(SubscribeFailed))
      && (env.subscribed && env.reply.None? ==> x.result == Err(ResponseTimeout))
      && (env.subscribed && env.reply.Some? && env.decrypt(env.reply.value).None? ==> x.result == Err(DecryptFailed))
    ensures var decrypted := if env.reply.Some? then env.decrypt(env.reply.value) else None;
      Encrypted(c, req, env) && PublishLoop(env.publish, 0).outcome == Published && env.subscribed && decrypted.Some? ==>
        x.result == (match env.parse(decrypted.value) case Some(resp) => Ok(resp) case None => Err(ParseFailed))
  {
    if !c.connected then Exchange(Err(NotConnected), None, None, None)
    else if env.sharedSecret.None? then Exchange(Err(SharedSecretFailed), None, None, None)
    else if env.ourPubkey.None? then Exchange(Err(InvalidSecret), None, None, None)
    else if env.encrypt(req).None? then Exchange(Err(EncryptFailed), None, None, None)
    else
      var event := RequestEvent(c, env.ourPubkey.value, env.encrypt(req).value, now);
      var run := PublishLoop(env.publish, 0);
      if run.outcome.PublishError? then
        Exchange(Err(PublishFailed(run.outcome.message)), Some(event), Some(run), None)
      else
        var filter := ResponseFilter(env.eventId(event));
        if !env.subscribed then Exchange(Err(SubscribeFailed), Some(event), Some(run), Some(filter))
        else if env.reply.None? then Exchange(Err(ResponseTimeout), Some(event), Some(run), Some(filter))
        else if env.decrypt(env.reply.value).None? then Exchange(Err(DecryptFailed), Some(event), Some(run), Some(filter))
        else
          match env.parse(env.decrypt(env.reply.value).value)
          case None => Exchange(Err(ParseFailed), Some(event), Some(run), Some(filter))
          case Some(resp) => Exchange(Ok(resp), Some(event), Some(run), Some(filter))
  }

  function PayInvoiceRequest(invoice: string): Request {
    Request("pay_invoice", [("invoice", invoice)])
  }

  function GetBalanceRequest(): Request {
    Request("get_balance", [])
  }

  /** `PayInvoice`: success exactly when the exchange succeeded and the
      wallet reported no error; a wallet error keeps its code and message. */
  function PayInvoice(c: Client, invoice: string, env: WalletEnv, now: int): (r: Result<(), NwcError>)
    ensures var x := SendRequest(c, PayInvoiceRequest(invoice), env, now);
      && (r.Ok? <==> x.result.Ok? && x.result.value.error.None?)
      && (x.result.Err? ==> r == Err(x.result.error))
      && (x.result.Ok? && x.result.value.error.Some? ==>
            r == Err(PaymentFailed(x.result.value.error.value.code, x.result.value.error.value.message)))
    ensures !c.connected ==> r == Err(NotConnected)
  {
    var x := SendRequest(c, PayInvoiceRequest(invoice), env, now);
    match x.result
    case Err(e) => Err(e)
    case Ok(resp) =>
      match resp.error
      case Some(err) => Err(PaymentFailed(err.code, err.message))
      case None => Ok(())
  }

  /** `GetBalance`: the balance in millisatoshis. Fails on an exchange error,
      a wallet error, or a `balance` that is missing or not a number. */
  function GetBalance(c: Client, env: WalletEnv, now: int): (r: Result<int, NwcError>)
    ensures var x := SendRequest(c, GetBalanceRequest(), env, now);
      && (r.Ok? <==> (x.result.Ok? && x.result.value.error.None? && x.result.value.result.Some?
                      && "balance" in x.result.value.result.value && x.result.value.result.value["balance"].JNumber?))
      && (r.Ok? ==> r.value == x.result.value.result.value["balance"].n)
      && (x.result.Ok? && x.result.value.error.Some? ==>
            r == Err(BalanceFailed(x.result.value.error.value.code, x.result.value.error.value.message)))
  {
    var x := SendRequest(c, GetBalanceRequest(), env, now);
    match x.result
    case Err(e) => Err(e)
    case Ok(resp) =>
      if resp.error.Some? then Err(BalanceFailed(resp.error.value.code, resp.error.value.message))
      else if resp.result.Some? && "balance" in resp.result.value && resp.result.value["balance"].JNumber? then
        Ok(resp.result.value["balance"].n)
      else Err(InvalidBalance)
  }
}
