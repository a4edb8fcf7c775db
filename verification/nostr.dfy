/** The parts of a Nostr event the bot builds and inspects. Hashing the
    event id and producing signatures belong to the signer, which the model
    treats as an oracle. */
module Nostr {

  /** A tag such as `["e", <event id>]`. */
  type Tag = seq<string>

  /** An event before it is signed. */
  datatype Event = Event(pubkey: string, createdAt: int, kind: int, tags: seq<Tag>, content: string)

  /** What the remote signer adds to an event: its id and signature. */
  datatype Signature = Signature(id: string, sig: string)

  /** An event together with the id and signature the signer produced for it. */
  datatype SignedEvent = SignedEvent(event: Event, signature: Signature)
}
