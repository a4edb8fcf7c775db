/** Paying a zap to a note: find the author's lightning address (LUD-16),
    build and sign a NIP-57 zap request, negotiate an invoice with the
    author's LNURL-pay endpoint (LUD-06), and pay it through the wallet. */
module Zapper {
  import opened Base
  import opened Text
  import opened Nostr
  import Nwc
  import Bunker

  const ZapRequestKind: int := 9734
  const PayRequestTag: string := "payRequest"
  const HttpOk: int := 200

  /** `Zapper`: the wallet client and the bot's relay list. */
  datatype Zapper = Zapper(wallet: Nwc.Client, relays: seq<string>)

  datatype ZapError =
    | NoLightningAddress
    | PubkeyFailed(cause: Bunker.CallError)
    | SignFailed(cause: Bunker.CallError)
    | HttpFailed(url: string)
    | BadStatus(status: int)
    | BadBody
    | InvalidTag(tag: string)
    | AmountOutOfBounds(amountMillisats: int, minSendable: int, maxSendable: int)
    | InvalidCallback(callback: string)
    | RemoteRejected(reason: string)
    | EmptyInvoice
    | WalletFailed(walletError: Nwc.NwcError)

  /** The `lud16` field of a kind-0 profile. */
  datatype Profile = Profile(lud16: string)

  /** A profile event whose content parsed (`Some`) and names an address. */
  predicate Qualifies(p: Option<Profile>) {
    p.Some? && p.value.lud16 != ""
  }

  /** `getLightningAddress`: the profile events received in order, each
      `None` when its JSON did not parse. The first parsed profile with a
      non-empty `lud16` wins; malformed ones are skipped. */
  function GetLightningAddress(profiles: seq<Option<Profile>>): (r: Result<string, ZapError>)
    ensures r.Ok? <==> exists i :: 0 <= i < |profiles| && Qualifies(profiles[i])
    ensures r.Ok? ==> exists i :: (0 <= i < |profiles| && Qualifies(profiles[i])
                                   && r.value == profiles[i].value.lud16
                                   && forall j :: 0 <= j < i ==> !Qualifies(profiles[j]))
    ensures r.Err? ==> r.error == NoLightningAddress
  {
    if |profiles| == 0 then Err(NoLightningAddress)
    else if Qualifies(profiles[0]) then Ok(profiles[0].value.lud16)
    else
      var rest := GetLightningAddress(profiles[1..]);
      assert forall i :: 1 <= i < |profiles| ==> profiles[i] == profiles[1..][i - 1];
      if rest.Ok? then
        var i :| 0 <= i < |profiles[1..]| && Qualifies(profiles[1..][i])
          && rest.value == profiles[1..][i].value.lud16 && forall j :: 0 <= j < i ==> !Qualifies(profiles[1..][j]);
        assert Qualifies(profiles[i + 1]) && forall j :: 0 <= j < i + 1 ==> !Qualifies(profiles[j]);
        rest
      else
        rest
  }

  /** The LNURL-pay well-known URL for `user@domain`. */
  function LnurlpUrl(user: string, domain: string): string {
    "https://" + domain + "/.well-known/lnurlp/" + user
  }

  /** `lightningAddressToLNURL`: "" unless the address has exactly one `@`. */
  function LightningAddressToLnurl(address: string): (url: string)
    ensures url != "" <==> Count(address, '@') == 1
    ensures url != "" ==> HasPrefix(url, "https://")
  {
    var parts := Split(address, '@');
    if |parts| != 2 then "" else LnurlpUrl(parts[0], parts[1])
  }

  /** The conversion of an address `user@domain`. */
  lemma LnurlOfUserAtDomain(user: string, domain: string)
    requires '@' !in user && '@' !in domain
    ensures LightningAddressToLnurl(user + "@" + domain) == LnurlpUrl(user, domain)
  {
    assert user + "@" + domain == user + ['@'] + domain;
    SplitAround(user, domain, '@');
  }

  /** An HTTP GET: a transport failure, or a status with a body that was
      read and decoded (`None` when reading or decoding failed). */
  datatype HttpReply<T> = TransportError | Reply(status: int, body: Option<T>)

  /** The LNURL-pay metadata fields the bot reads. */
  datatype Metadata = Metadata(callback: string, minSendable: int, maxSendable: int, tag: string)

  /** The invoice callback's JSON answer. */
  datatype InvoiceReply = InvoiceReply(pr: string, status: string, reason: string)

  /** The query the invoice callback is sent: the callback URL with
      `amount` (millisatoshis, decimal) and `nostr` (the signed zap request). */
  datatype CallbackQuery = CallbackQuery(callback: string, amount: string, nostr: SignedEvent)

  /** The HTTP side of the negotiation, as oracles. */
  datatype LnurlNet = LnurlNet(
    metadata: string -> HttpReply<Metadata>,
    callbackParses: string -> bool,
    invoice: CallbackQuery -> HttpReply<InvoiceReply>)

  /** `fetchLNURLMetadata`: status 200, a decodable body, and tag `payRequest`,
      checked in that order. The empty URL (what `lightningAddressToLNURL`
      returns for an unusable address) has no scheme, so the GET fails before
      any request is made. */
  function FetchLnurlMetadata(endpoint: string, net: LnurlNet): (r: Result<Metadata, ZapError>)
    ensures endpoint == "" ==> r == Err(HttpFailed(endpoint))
    ensures r.Ok? <==> (endpoint != "" && net.metadata(endpoint).Reply? && net.metadata(endpoint).status == HttpOk
                        && net.metadata(endpoint).body.Some? && net.metadata(endpoint).body.value.tag == PayRequestTag)
    ensures r.Ok? ==> r.value == net.metadata(endpoint).body.value
    ensures endpoint != "" && net.metadata(endpoint).Reply? && net.metadata(endpoint).status != HttpOk
      ==> r == Err(BadStatus(net.metadata(endpoint).status))
    ensures (endpoint != "" && net.metadata(endpoint).Reply? && net.metadata(endpoint).status == HttpOk
             && net.metadata(endpoint).body.Some? && net.metadata(endpoint).body.value.tag != PayRequestTag)
      ==> r == Err(InvalidTag(net.metadata(endpoint).body.value.tag))
  {
    if endpoint == "" then Err(HttpFailed(endpoint))
    else
      match net.metadata(endpoint)
      case TransportError => Err(HttpFailed(endpoint))
      case Reply(status, body) =>
        if status != HttpOk then Err(BadStatus(status))
        else if body.None? then Err(BadBody)
        else if body.value.tag != PayRequestTag then Err(InvalidTag(body.value.tag))
        else Ok(body.value)
  }

  /** `fetchInvoice`: an explicit `status == "ERROR"` is a rejection even if
      a `pr` came with it; otherwise an empty `pr` is an error. */
  function FetchInvoice(callback: string, amountMillisats: int, zapRequest: SignedEvent, net: LnurlNet): (r: Result<string, ZapError>)
    ensures !net.callbackParses(callback) ==> r == Err(InvalidCallback(callback))
    ensures var reply := net.invoice(CallbackQuery(callback, IntToDecimal(amountMillisats), zapRequest));
      && (r.Ok? <==> (net.callbackParses(callback) && reply.Reply? && reply.status == HttpOk && reply.body.Some?
                      && reply.body.value.status != "ERROR" && reply.body.value.pr != ""))
      && (r.Ok? ==> r.value == reply.body.value.pr)
      && ((net.callbackParses(callback) && reply.Reply? && reply.status == HttpOk && reply.body.Some?
           && reply.body.value.status == "ERROR") ==> r == Err(RemoteRejected(reply.body.value.reason)))
  {
    if !net.callbackParses(callback) then Err(InvalidCallback(callback))
    else
      match net.invoice(CallbackQuery(callback, IntToDecimal(amountMillisats), zapRequest))
      case TransportError => Err(HttpFailed(callback))
      case Reply(status, body) =>
        if status != HttpOk then Err(BadStatus(status))
        else if body.None? then Err(BadBody)
        else if body.value.status == "ERROR" then Err(RemoteRejected(body.value.reason))
        else if body.value.pr == "" then Err(EmptyInvoice)
        else Ok(body.value.pr)
  }

  /** `amountSats * 1000` computed in Go's 64-bit `int`. */
  function Millisats(amountSats: int): (m: int)
    ensures InInt64(amountSats * 1000) ==> m == amountSats * 1000
  {
    Wrap64(amountSats * 1000)
  }

  predicate WithinSendable(m: Metadata, amountMillisats: int) {
    m.minSendable <= amountMillisats <= m.maxSendable
  }

  /** `requestInvoice`: the result, and the callback query issued, if any. */
  datatype InvoiceRun = InvoiceRun(result: Result<string, ZapError>, query: Option<CallbackQuery>)

  /** `requestInvoice`: metadata first, then the inclusive sendable bounds,
      then the callback; the callback is never queried with an amount outside
      the bounds. */
  function RequestInvoice(endpoint: string, amountSats: int, zapRequest: SignedEvent, net: LnurlNet): (run: InvoiceRun)
    ensures FetchLnurlMetadata(endpoint, net).Err? ==> run == InvoiceRun(Err(FetchLnurlMetadata(endpoint, net).error), None)
    ensures var meta := FetchLnurlMetadata(endpoint, net);
      (meta.Ok? && !WithinSendable(meta.value, Millisats(amountSats))) ==>
        run == InvoiceRun(Err(AmountOutOfBounds(Millisats(amountSats), meta.value.minSendable, meta.value.maxSendable)), None)
    ensures run.query.Some? ==> (FetchLnurlMetadata(endpoint, net).Ok?
      && WithinSendable(FetchLnurlMetadata(endpoint, net).value, Millisats(amountSats))
      && run.query.value == CallbackQuery(FetchLnurlMetadata(endpoint, net).value.callback, IntToDecimal(Millisats(amountSats)), zapRequest))
    ensures run.result.Ok? ==> run.query.Some? && run.result == FetchInvoice(run.query.value.callback, Millisats(amountSats), zapRequest, net)
    ensures var meta := FetchLnurlMetadata(endpoint, net);
      (meta.Ok? && WithinSendable(meta.value, Millisats(amountSats))) ==>
        && run.result == FetchInvoice(meta.value.callback, Millisats(amountSats), zapRequest, net)
        && (run.query.Some? <==> net.callbackParses(meta.value.callback))
  {
    match FetchLnurlMetadata(endpoint, net)
    case Err(e) => InvoiceRun(Err(e), None)
    case Ok(meta) =>
      var msat := Millisats(amountSats);
      if !WithinSendable(meta, msat) then
        InvoiceRun(Err(AmountOutOfBounds(msat, meta.minSendable, meta.maxSendable)), None)
      else
        var result := FetchInvoice(meta.callback, msat, zapRequest, net);
        InvoiceRun(result, if net.callbackParses(meta.callback) then Some(CallbackQuery(meta.callback, IntToDecimal(msat), zapRequest)) else None)
  }

  /** Both sendable bounds are inclusive: an amount equal to either bound is
      passed on to the callback. */
  lemma SendableBoundsInclusive(endpoint: string, amountSats: int, zapRequest: SignedEvent, net: LnurlNet)
    requires InInt64(amountSats * 1000)
    requires FetchLnurlMetadata(endpoint, net).Ok?
    requires var m := FetchLnurlMetadata(endpoint, net).value;
      (amountSats * 1000 == m.minSendable || amountSats * 1000 == m.maxSendable) && m.minSendable <= m.maxSendable
    requires net.callbackParses(FetchLnurlMetadata(endpoint, net).value.callback)
    ensures RequestInvoice(endpoint, amountSats, zapRequest, net).query.Some?
  {
  }

  /** The kind-9734 zap request (NIP-57 appendix A): tags `e`, `p`, `amount`
      in millisatoshis as a decimal string, and the first relay; the content
      is the comment. */
  function ZapRequestEvent(zapperPubkey: string, eventId: string, recipient: string, amountSats: int, comment: string, relay: string, now: int): (e: Event)
    ensures e.kind == ZapRequestKind && e.pubkey == zapperPubkey && e.content == comment && e.createdAt == now
    ensures |e.tags| == 4
    ensures e.tags[0] == ["e", eventId] && e.tags[1] == ["p", recipient] && e.tags[3] == ["relays", relay]
    ensures e.tags[2] == ["amount", IntToDecimal(Millisats(amountSats))]
  {
    Event(zapperPubkey, now, ZapRequestKind,
          [["e", eventId], ["p", recipient], ["amount", IntToDecimal(Millisats(amountSats))], ["relays", relay]],
          comment)
  }

  /** The `amount` tag reads back as exactly `amountSats * 1000`. */
  lemma ZapRequestAmountReadsBack(zapperPubkey: string, eventId: string, recipient: string, amountSats: int, comment: string, relay: string, now: int)
    requires InInt64(amountSats * 1000)
    ensures ParseDecimal(ZapRequestEvent(zapperPubkey, eventId, recipient, amountSats, comment, relay, now).tags[2][1])
         == Some(amountSats * 1000)
  {
    DecimalRoundTrip(amountSats * 1000);
  }

  /** The remote signer behind the reconnecting client, with the outcome of
      re-opening a session for each of the two calls `createZapRequest` makes. */
  datatype SignerEnv = SignerEnv(
    signer: Bunker.Signer,
    reopenForPubkey: Result<Bunker.Session, Bunker.CallError>,
    reopenForSign: Result<Bunker.Session, Bunker.CallError>)

  /** `createZapRequest`: get the zapper's pubkey, build the request, sign it.
      Each signer call follows the reconnect-once policy, so the client may
      come back with a new session. `relays[0]` is read, so the relay list
      must not be empty. */
  function CreateZapRequest(z: Zapper, eventId: string, recipient: string, amountSats: int, comment: string,
                            rc: Bunker.ReconnectingClient, env: SignerEnv, now: int)
    : (r: (Bunker.ReconnectingClient, Result<SignedEvent, ZapError>))
    requires |z.relays| > 0
    ensures var pk := Bunker.GetPublicKey(rc, env.signer, env.reopenForPubkey);
      && (pk.result.Err? ==> r == (pk.client, Err(PubkeyFailed(pk.result.error))))
      && (r.1.Ok? ==> (pk.result.Ok?
                       && r.1.value.event == ZapRequestEvent(pk.result.value, eventId, recipient, amountSats, comment, z.relays[0], now)))
    ensures var pk := Bunker.GetPublicKey(rc, env.signer, env.reopenForPubkey);
      pk.result.Ok? ==> (
        var event := ZapRequestEvent(pk.result.value, eventId, recipient, amountSats, comment, z.relays[0], now);
        var signed := Bunker.SignEvent(pk.client, env.signer, event, env.reopenForSign);
        r.0 == signed.client
        && (signed.result.Err? ==> r.1 == Err(SignFailed(signed.result.error)))
        && (signed.result.Ok? ==> r.1 == Ok(SignedEvent(event, signed.result.value))))
    ensures r.0.bunkerUrl == rc.bunkerUrl
  {
    var pk := Bunker.GetPublicKey(rc, env.signer, env.reopenForPubkey);
    match pk.result
    case Err(e) => (pk.client, Err(PubkeyFailed(e)))
    case Ok(zapperPubkey) =>
      var event := ZapRequestEvent(zapperPubkey, eventId, recipient, amountSats, comment, z.relays[0], now);
      var signed := Bunker.SignEvent(pk.client, env.signer, event, env.reopenForSign);
      match signed.result
      case Err(e) => (signed.client, Err(SignFailed(e)))
      case Ok(sig) => (signed.client, Ok(SignedEvent(event, sig)))
  }

  /** How far `ZapNote` got. */
  datatype Stage = AddressLookup | ZapRequest | InvoiceRequest | Payment

  /** What `ZapNote` did: the signer client afterwards, the result, the last
      stage entered, and the invoice handed to the wallet, if any. */
  datatype ZapRun = ZapRun(client: Bunker.ReconnectingClient, result: Result<(), ZapError>, stage: Stage, paid: Option<string>)

  /** `ZapNote`: address, then zap request, then invoice, then payment; the
      first failure ends the zap. `profiles` are the kind-0 events received
      for the author. The LNURL conversion is not checked on its own: an
      address without exactly one `@` becomes the empty URL, whose metadata
      request fails, so such an address is never paid. */
  function ZapNote(z: Zapper, eventId: string, authorPubkey: string, amountSats: int, comment: string,
                   rc: Bunker.ReconnectingClient, signerEnv: SignerEnv, profiles: seq<Option<Profile>>,
                   net: LnurlNet, walletEnv: Nwc.WalletEnv, now: int): (run: ZapRun)
    requires |z.relays| > 0
    ensures GetLightningAddress(profiles).Err? ==> run == ZapRun(rc, Err(NoLightningAddress), AddressLookup, None)
    ensures run.stage != AddressLookup ==> GetLightningAddress(profiles).Ok?
    ensures run.stage in {InvoiceRequest, Payment} ==>
      CreateZapRequest(z, eventId, authorPubkey, amountSats, comment, rc, signerEnv, now).1.Ok?
    ensures run.paid.Some? <==> run.stage == Payment
    ensures run.stage == Payment ==> Count(GetLightningAddress(profiles).value, '@') == 1
    ensures run.paid.Some? ==> (
      var zr := CreateZapRequest(z, eventId, authorPubkey, amountSats, comment, rc, signerEnv, now).1.value;
      var endpoint := LightningAddressToLnurl(GetLightningAddress(profiles).value);
      RequestInvoice(endpoint, amountSats, zr, net).result == Ok(run.paid.value))
    ensures run.result.Ok? <==> (run.paid.Some? && Nwc.PayInvoice(z.wallet, run.paid.value, walletEnv, now).Ok?)
    ensures GetLightningAddress(profiles).Ok? ==> (
      var zr := CreateZapRequest(z, eventId, authorPubkey, amountSats, comment, rc, signerEnv, now);
      && run.client == zr.0
      && (zr.1.Err? ==> run == ZapRun(zr.0, Err(zr.1.error), ZapRequest, None)))
    ensures GetLightningAddress(profiles).Ok? ==> (
      var zr := CreateZapRequest(z, eventId, authorPubkey, amountSats, comment, rc, signerEnv, now);
      zr.1.Ok? ==> (
        var invoice := RequestInvoice(LightningAddressToLnurl(GetLightningAddress(profiles).value), amountSats, zr.1.value, net);
        && (invoice.result.Err? ==> run == ZapRun(zr.0, Err(invoice.result.error), InvoiceRequest, None))
        && (invoice.result.Ok? ==> run.stage == Payment && run.paid == Some(invoice.result.value))
        && (invoice.result.Ok? ==> (
              var paid := Nwc.PayInvoice(z.wallet, invoice.result.value, walletEnv, now);
              paid.Err? ==> run.result == Err(WalletFailed(paid.error))))))
  {
    match GetLightningAddress(profiles)
    case Err(e) => ZapRun(rc, Err(e), AddressLookup, None)
    case Ok(address) =>
      var (rc', zapRequest) := CreateZapRequest(z, eventId, authorPubkey, amountSats, comment, rc, signerEnv, now);
      match zapRequest
      case Err(e) => ZapRun(rc', Err(e), ZapRequest, None)
      case Ok(zr) =>
        var endpoint := LightningAddressToLnurl(address);
        var invoice := RequestInvoice(endpoint, amountSats, zr, net);
        match invoice.result
        case Err(e) => ZapRun(rc', Err(e), InvoiceRequest, None)
        case Ok(pr) =>
          match Nwc.PayInvoice(z.wallet, pr, walletEnv, now)
          case Err(e) => ZapRun(rc', Err(WalletFailed(e)), Payment, Some(pr))
          case Ok(_) => ZapRun(rc', Ok(()), Payment, Some(pr))
  }
}
