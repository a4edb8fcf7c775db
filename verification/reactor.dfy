/** Reactions (NIP-25): a kind-7 event tagged to the note and its author,
    optionally carrying a custom emoji (NIP-30), signed by the remote signer
    and published to every configured relay. */
module Reactor {
  import opened Base
  import opened Nostr
  import Config
  import Bunker

  const ReactionKind: int := 7

  /** Whether the configuration names a custom emoji (both parts present). */
  predicate HasCustomEmoji(cfg: Config.ReactionConfig) {
    cfg.emojiName != "" && cfg.emojiUrl != ""
  }

  /** The unsigned reaction event. */
  function ReactionEvent(ourPubkey: string, eventId: string, authorPubkey: string, cfg: Config.ReactionConfig, now: int): (e: Event)
    ensures e.kind == ReactionKind && e.pubkey == ourPubkey && e.content == cfg.content
    ensures |e.tags| >= 3 && e.tags[..3] == [["e", eventId], ["p", authorPubkey], ["k", "1"]]
    ensures |e.tags| == 4 <==> HasCustomEmoji(cfg)
    ensures |e.tags| <= 4
    ensures HasCustomEmoji(cfg) ==> e.tags[3] == ["emoji", cfg.emojiName, cfg.emojiUrl]
  {
    var base := [["e", eventId], ["p", authorPubkey], ["k", "1"]];
    var tags := if HasCustomEmoji(cfg) then base + [["emoji", cfg.emojiName, cfg.emojiUrl]] else base;
    Event(ourPubkey, now, ReactionKind, tags, cfg.content)
  }

  /** What happened at one relay: it could not be reached (skipped), it
      rejected the event, or it accepted it. */
  datatype RelayAttempt = Unreachable | Rejected | Accepted

  datatype ReactError =
    | PubkeyFailed(cause: Bunker.CallError)
    | SignFailed(signError: Bunker.CallError)
    | NoRelayAccepted

  /** The positions of the relays that accepted the publish; `attempt(i)` is
      what happened at `relays[i]`, so a URL listed twice is tried twice. */
  function AcceptedIndices(relays: seq<string>, attempt: nat -> RelayAttempt): set<nat> {
    set i: nat | i < |relays| && attempt(i) == Accepted
  }

  /** `publishedCount`: the relays are tried in order and each acceptance
      adds one. */
  function AcceptedCount(relays: seq<string>, attempt: nat -> RelayAttempt): (n: nat)
    ensures n == |AcceptedIndices(relays, attempt)|
    ensures n <= |relays|
    ensures n > 0 <==> exists i :: 0 <= i < |relays| && attempt(i) == Accepted
  {
    if |relays| == 0 then
      assert AcceptedIndices(relays, attempt) == {};
      0
    else
      var k := |relays| - 1;
      var init := relays[..k];
      var rest := AcceptedCount(init, attempt);
      AcceptedIndicesGrow(relays, attempt);
      rest + (if attempt(k) == Accepted then 1 else 0)
  }

  /** The last relay adds its own position, and nothing else, to the set. */
  lemma AcceptedIndicesGrow(relays: seq<string>, attempt: nat -> RelayAttempt)
    requires |relays| > 0
    ensures var k := |relays| - 1;
      && k !in AcceptedIndices(relays[..k], attempt)
      && AcceptedIndices(relays, attempt)
         == AcceptedIndices(relays[..k], attempt) + (if attempt(k) == Accepted then {k} else {})
  {
  }

  /** What `React` did: its result, the signed reaction (if signing was
      reached and succeeded), and how many relays accepted it. */
  datatype ReactRun = ReactRun(result: Result<(), ReactError>, signed: Option<SignedEvent>, accepted: nat)

  /** `React`. `ourPubkey` and `sign` are the plain bunker client's answers;
      `attempt(i)` is what connecting and publishing to `relays[i]` gave. */
  function React(eventId: string, authorPubkey: string, cfg: Config.ReactionConfig,
                 ourPubkey: Result<string, Bunker.CallError>,
                 sign: Event -> Result<Signature, Bunker.CallError>,
                 relays: seq<string>, attempt: nat -> RelayAttempt, now: int): (run: ReactRun)
    ensures !cfg.enabled ==> run == ReactRun(Ok(()), None, 0)
    ensures cfg.enabled && ourPubkey.Err? ==> run == ReactRun(Err(PubkeyFailed(ourPubkey.error)), None, 0)
    ensures run.signed.Some? ==> (cfg.enabled && ourPubkey.Ok?
      && run.signed.value.event == ReactionEvent(ourPubkey.value, eventId, authorPubkey, cfg, now)
      && sign(run.signed.value.event) == Ok(run.signed.value.signature))
    ensures run.accepted > 0 ==> run.signed.Some?
    ensures cfg.enabled && ourPubkey.Ok? ==> (
      var event := ReactionEvent(ourPubkey.value, eventId, authorPubkey, cfg, now);
      && (sign(event).Err? ==> run == ReactRun(Err(SignFailed(sign(event).error)), None, 0))
      && (sign(event).Ok? ==> run.signed == Some(SignedEvent(event, sign(event).value))
                              && run.accepted == |AcceptedIndices(relays, attempt)|))
    ensures cfg.enabled ==> (run.result.Ok? <==> exists i :: 0 <= i < |relays| && run.signed.Some? && attempt(i) == Accepted)
    ensures run.signed.Some? ==> run.accepted == |AcceptedIndices(relays, attempt)|
    ensures cfg.enabled && run.signed.Some? && run.result.Err? ==> run.result.error == NoRelayAccepted
  {
    if !cfg.enabled then ReactRun(Ok(()), None, 0)
    else
      match ourPubkey
      case Err(e) => ReactRun(Err(PubkeyFailed(e)), None, 0)
      case Ok(pk) =>
        var event := ReactionEvent(pk, eventId, authorPubkey, cfg, now);
        match sign(event)
        case Err(e) => ReactRun(Err(SignFailed(e)), None, 0)
        case Ok(sig) =>
          var n := AcceptedCount(relays, attempt);
          ReactRun(if n == 0 then Err(NoRelayAccepted) else Ok(()), Some(SignedEvent(event, sig)), n)
  }
}
