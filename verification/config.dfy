/** The bot's configuration record, its ordered validation rules, and the
    wallet-URL masker. */
module Config {
  import opened Base

  datatype ReactionConfig = ReactionConfig(enabled: bool, content: string, emojiName: string, emojiUrl: string)

  /** `Config`, flattened: author npub and bunker URL, relays, selected list,
      wallet URL, zap amount and comment, reaction settings, budgets, and the
      database path. */
  datatype Config = Config(
    npub: string,
    bunkerUrl: string,
    relays: seq<string>,
    selectedList: string,
    nwcUrl: string,
    zapAmount: int,
    zapComment: string,
    reaction: ReactionConfig,
    dailyLimit: int,
    perNpubLimit: int,
    databasePath: string)

  /** The validation rules, one constructor per rule. */
  datatype ConfigError =
    | MissingNpub
    | MissingBunkerUrl
    | NoRelays
    | MissingNwcUrl
    | NonPositiveAmount
    | MissingReactionContent
    | UnpairedEmoji
    | NonPositiveDailyLimit
    | MissingDatabasePath

  /** The position at which `Validate` checks each rule. */
  function Rank(e: ConfigError): nat {
    match e
    case MissingNpub => 0
    case MissingBunkerUrl => 1
    case NoRelays => 2
    case MissingNwcUrl => 3
    case NonPositiveAmount => 4
    case MissingReactionContent => 5
    case UnpairedEmoji => 6
    case NonPositiveDailyLimit => 7
    case MissingDatabasePath => 8
  }

  /** Whether `c` breaks rule `e`, each rule judged on its own. */
  predicate Violates(c: Config, e: ConfigError) {
    match e
    case MissingNpub => c.npub == ""
    case MissingBunkerUrl => c.bunkerUrl == ""
    case NoRelays => |c.relays| == 0
    case MissingNwcUrl => c.nwcUrl == ""
    case NonPositiveAmount => c.zapAmount <= 0
    case MissingReactionContent => c.reaction.enabled && c.reaction.content == ""
    case UnpairedEmoji => c.reaction.enabled && ((c.reaction.emojiName == "") != (c.reaction.emojiUrl == ""))
    case NonPositiveDailyLimit => c.dailyLimit <= 0
    case MissingDatabasePath => c.databasePath == ""
  }

  /** `Validate`: `None` for a valid config, otherwise the first rule broken
      in check order. */
  function Validate(c: Config): (r: Option<ConfigError>)
    ensures r.None? ==> forall e :: !Violates(c, e)
    ensures r.Some? ==> Violates(c, r.value) && forall e :: Rank(e) < Rank(r.value) ==> !Violates(c, e)
  {
    if c.npub == "" then Some(MissingNpub)
    else if c.bunkerUrl == "" then Some(MissingBunkerUrl)
    else if |c.relays| == 0 then Some(NoRelays)
    else if c.nwcUrl == "" then Some(MissingNwcUrl)
    else if c.zapAmount <= 0 then Some(NonPositiveAmount)
    else if c.reaction.enabled && c.reaction.content == "" then Some(MissingReactionContent)
    else if c.reaction.enabled && ((c.reaction.emojiName != "" && c.reaction.emojiUrl == "")
                                   || (c.reaction.emojiName == "" && c.reaction.emojiUrl != "")) then Some(UnpairedEmoji)
    else if c.dailyLimit <= 0 then Some(NonPositiveDailyLimit)
    else if c.databasePath == "" then Some(MissingDatabasePath)
    else None
  }

  /** What a valid configuration guarantees the rest of the bot: a first
      relay for zap requests, positive amount and daily limit, and a usable
      reaction setting. */
  lemma ValidConfigGuarantees(c: Config)
    requires Validate(c).None?
    ensures |c.relays| > 0 && c.zapAmount > 0 && c.dailyLimit > 0
    ensures c.npub != "" && c.bunkerUrl != "" && c.nwcUrl != "" && c.databasePath != ""
    ensures c.reaction.enabled ==> c.reaction.content != "" && (c.reaction.emojiName == "" <==> c.reaction.emojiUrl == "")
  {
  }

  /** The per-author limit takes part in no rule: any value is accepted. */
  lemma PerNpubLimitUnchecked(c: Config, limit: int)
    ensures Validate(c.(perNpubLimit := limit)) == Validate(c)
  {
  }

  /** `maskNWCUrl` as written: `None` where Go's slice expression panics. */
  function MaskNwcUrlAsWritten(url: string): (r: Option<string>)
    ensures r.None? <==> |url| == 31
  {
    if |url| <= 30 then Some("**1")
    else if |url| - 32 < 0 then None
    else Some(url[..15] + "..." + url[|url| - 32..])
  }

  /** A 31-character URL passes the length guard and then slices from index -1. */
  lemma MaskPanicsAt31()
    ensures MaskNwcUrlAsWritten("nostr+walletconnect://abcdefghi") == None
  {
  }

  /** `maskNWCUrl` with the guard widened to every length the slice cannot
      take: short URLs are replaced whole, long ones keep their first 15 and
      last 32 characters. */
  function MaskNwcUrl(url: string): (r: string)
    ensures |url| < 32 ==> r == "**1"
    ensures |url| >= 32 ==> |r| == 50 && r[..15] == url[..15] && r[15..18] == "..." && r[18..] == url[|url| - 32..]
  {
    if |url| < 32 then "**1" else url[..15] + "..." + url[|url| - 32..]
  }

  /** The corrected masker differs from the original only where the original panics. */
  lemma MaskAgreesExceptAt31(url: string)
    requires |url| != 31
    ensures MaskNwcUrlAsWritten(url) == Some(MaskNwcUrl(url))
  {
  }
}
