/** The reconnecting remote-signer client: every call that fails with a
    session error (a cancelled or expired context) triggers one reconnect
    and, if that succeeds, one retry on the new session. */
module Bunker {
  import opened Base
  import opened Nostr

  /** An error returned by a remote-signer call. `Wrapped` is Go's `%w`
      wrapping, which `errors.Is` looks through. */
  datatype CallError =
    | ContextCanceled
    | DeadlineExceeded
    | Wrapped(context: string, cause: CallError)
    | Remote(message: string)

  /** `errors.Is(err, target)` for a sentinel `target`. */
  predicate ErrorIs(err: CallError, target: CallError)
  {
    err == target || (err.Wrapped? && ErrorIs(err.cause, target))
  }

  /** The innermost error of a wrapping chain. */
  function RootCause(err: CallError): (r: CallError)
    ensures !r.Wrapped?
  {
    if err.Wrapped? then RootCause(err.cause) else err
  }

  /** `isSessionError`: the chain ends in `context.Canceled` or
      `context.DeadlineExceeded`. */
  function IsSessionError(err: CallError): (b: bool)
    ensures b <==> RootCause(err) == ContextCanceled || RootCause(err) == DeadlineExceeded
  {
    SentinelFoundAtRoot(err, ContextCanceled);
    SentinelFoundAtRoot(err, DeadlineExceeded);
    ErrorIs(err, ContextCanceled) || ErrorIs(err, DeadlineExceeded)
  }

  lemma {:induction false} SentinelFoundAtRoot(err: CallError, target: CallError)
    requires !target.Wrapped?
    ensures ErrorIs(err, target) <==> RootCause(err) == target
  {
    if err.Wrapped? {
      SentinelFoundAtRoot(err.cause, target);
    }
  }

  /** One NIP-46 session with the remote signer, identified by the order in
      which sessions were opened. */
  datatype Session = Session(serial: nat)

  /** `ReconnectingClient`: the current session and the bunker URL used to
      open a new one. */
  datatype ReconnectingClient = ReconnectingClient(session: Session, bunkerUrl: string)

  /** `reconnect`: `reopened` is what `NewClient` returned for the bunker URL.
      The session is replaced only when that succeeded. */
  function Reconnect(rc: ReconnectingClient, reopened: Result<Session, CallError>): (r: (ReconnectingClient, Option<CallError>))
    ensures r.1.None? <==> reopened.Ok?
    ensures reopened.Ok? ==> r.0.session == reopened.value
    ensures r.0.bunkerUrl == rc.bunkerUrl
    ensures r.0.session != rc.session ==> reopened.Ok?
    ensures reopened.Err? ==> r.0 == rc && r.1 == Some(reopened.error)
  {
    match reopened
    case Ok(s) => (rc.(session := s), None)
    case Err(e) => (rc, Some(e))
  }

  /** What one wrapped call did: the client afterwards, the value returned,
      the sessions the call was issued on (in order), and the reconnects made. */
  datatype Invocation<T> = Invocation(
    client: ReconnectingClient,
    result: Result<T, CallError>,
    sessionsUsed: seq<Session>,
    reconnects: nat)

  /** The reconnect-once policy shared by every method of `ReconnectingClient`,
      stated over what an invocation did: the call is issued on the current
      session; only a session error triggers a reconnect; a successful reopen
      is followed by exactly one retry on the new session, whose result is
      returned; a failed reopen returns the ORIGINAL error and keeps the client. */
  ghost predicate ReconnectOnce<T>(rc: ReconnectingClient, call: Session -> Result<T, CallError>, reopened: Result<Session, CallError>, inv: Invocation<T>)
  {
    && 1 <= |inv.sessionsUsed| <= 2 && inv.reconnects <= 1
    && inv.sessionsUsed[0] == rc.session
    && inv.result == call(inv.sessionsUsed[|inv.sessionsUsed| - 1])
    && (inv.reconnects == 1 <==> call(rc.session).Err? && IsSessionError(call(rc.session).error))
    && (|inv.sessionsUsed| == 2 <==> inv.reconnects == 1 && reopened.Ok?)
    && (|inv.sessionsUsed| == 2 ==> inv.sessionsUsed[1] == reopened.value && inv.client.session == reopened.value)
    && (|inv.sessionsUsed| == 1 ==> inv.client == rc && inv.result == call(rc.session))
    && inv.client.bunkerUrl == rc.bunkerUrl
  }

  /** The policy itself. `call` is the remote call on a given session;
      `reopened` is the outcome of opening a new session, consulted only if a
      reconnect is made. */
  function WithReconnect<T>(rc: ReconnectingClient, call: Session -> Result<T, CallError>, reopened: Result<Session, CallError>): (inv: Invocation<T>)
    ensures ReconnectOnce(rc, call, reopened, inv)
    ensures inv.reconnects == 0 ==> inv.result == call(rc.session) && inv.client == rc
  {
    var first := call(rc.session);
    if first.Err? && IsSessionError(first.error) then
      var (rc', reconnErr) := Reconnect(rc, reopened);
      if reconnErr.Some? then
        Invocation(rc, first, [rc.session], 1)
      else
        Invocation(rc', call(rc'.session), [rc.session, rc'.session], 1)
    else
      Invocation(rc, first, [rc.session], 0)
  }

  /** A session error on the retry is handed back to the caller: there is no
      second reconnect, whatever the retried call returns. */
  lemma NoReconnectLoop<T>(rc: ReconnectingClient, call: Session -> Result<T, CallError>, s: Session)
    requires call(rc.session).Err? && IsSessionError(call(rc.session).error)
    requires call(s).Err? && IsSessionError(call(s).error)
    ensures var inv := WithReconnect(rc, call, Ok(s));
      inv.result == call(s) && inv.reconnects == 1 && inv.sessionsUsed == [rc.session, s]
  {
  }

  /** A failed reconnect surfaces the ORIGINAL error, not the reconnect error. */
  lemma FailedReconnectKeepsOriginalError<T>(rc: ReconnectingClient, call: Session -> Result<T, CallError>, e: CallError)
    requires call(rc.session).Err? && IsSessionError(call(rc.session).error)
    ensures var inv := WithReconnect(rc, call, Err(e));
      inv.result == call(rc.session) && inv.client == rc && inv.reconnects == 1
  {
  }

  /** The remote signer's operations, as oracles over the session used. */
  datatype Signer = Signer(
    sign: (Session, Event) -> Result<Signature, CallError>,
    publicKey: Session -> Result<string, CallError>,
    nip44Decrypt: (Session, string, string) -> Result<string, CallError>,
    nip04Decrypt: (Session, string, string) -> Result<string, CallError>)

  /** `SignEvent` under the reconnect-once policy. */
  function SignEvent(rc: ReconnectingClient, signer: Signer, event: Event, reopened: Result<Session, CallError>): (inv: Invocation<Signature>)
    ensures ReconnectOnce(rc, s => signer.sign(s, event), reopened, inv)
  {
    WithReconnect(rc, s => signer.sign(s, event), reopened)
  }

  /** `GetPublicKey` under the reconnect-once policy. */
  function GetPublicKey(rc: ReconnectingClient, signer: Signer, reopened: Result<Session, CallError>): (inv: Invocation<string>)
    ensures ReconnectOnce(rc, signer.publicKey, reopened, inv)
  {
    WithReconnect(rc, signer.publicKey, reopened)
  }

  /** `DecryptNIP44` under the reconnect-once policy. */
  function DecryptNip44(rc: ReconnectingClient, signer: Signer, senderPubkey: string, ciphertext: string, reopened: Result<Session, CallError>): (inv: Invocation<string>)
    ensures ReconnectOnce(rc, s => signer.nip44Decrypt(s, senderPubkey, ciphertext), reopened, inv)
  {
    WithReconnect(rc, s => signer.nip44Decrypt(s, senderPubkey, ciphertext), reopened)
  }

  /** `DecryptNIP04` under the reconnect-once policy. */
  function DecryptNip04(rc: ReconnectingClient, signer: Signer, senderPubkey: string, ciphertext: string, reopened: Result<Session, CallError>): (inv: Invocation<string>)
    ensures ReconnectOnce(rc, s => signer.nip04Decrypt(s, senderPubkey, ciphertext), reopened, inv)
  {
    WithReconnect(rc, s => signer.nip04Decrypt(s, senderPubkey, ciphertext), reopened)
  }
}
