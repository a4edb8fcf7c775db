# pekka zap bot — a Dafny model of its decision logic

pekka watches the notes of the people on a private NIP-51 list. For each new
note it can send a zap: a Lightning payment requested over LNURL-pay (LUD-06
and LUD-16). The zap is announced with a NIP-57 zap request and paid through
a Nostr Wallet Connect wallet (NIP-47). The bot can also post a reaction
(NIP-25). A SQLite ledger of zapped notes enforces a daily budget and a
per-author budget. Signing goes through a NIP-46 remote signer ("bunker"),
which is reconnected once when its session has died.

This project models that logic as immutable datatypes and pure functions.
The relays, HTTP, the wallet, the signer, cryptography, NIP-19 codecs and JSON
are never computed. They enter as parameters: `Option`/`Result` values, or
total functions from a request to what the outside world answered. The
current time is a parameter too.

Modules, one per source file:

- `Base`: `Option`, `Result`, a byte type, and Go's int64 wrap-around.
- `Text`: `strings.Split`, `strings.Contains`, decimal and hex text.
- `Nostr`: events and tags.
- `Ledger`: `internal/db/database.go`.
- `Bot`: `internal/bot/bot.go`.
- `Zapper`: `internal/zap/zapper.go`.
- `Nwc`: `internal/nwc/nwc.go`.
- `NostrList`: `internal/nostrlist/list.go`.
- `Reactor`: `internal/reactor/reactor.go`.
- `Config`: `config/config.go`.
- `Bunker`: `internal/bunker/reconnecting.go`.

## Model

| member | source | states |
|---|---|---|
| Base.Wrap64 | internal/zap/zapper.go:226 | the result is in int64 range, congruent to the input modulo 2^64, and equal to it when no overflow occurs |
| Text.Split | internal/zap/zapper.go:212 | `strings.Split` gives one more part than there are separators, no part contains the separator, and joining the parts gives back the input |
| Text.DecimalRoundTrip | internal/zap/zapper.go:149 | parsing the decimal text of any integer gives back that integer |
| Text.HexRoundTrip | internal/bot/bot.go:411 | decoding the hex encoding of any byte string gives back the bytes |
| Ledger.IsZapped | internal/db/database.go:76-86 | true exactly when some row has the event id |
| Ledger.MarkZapped | internal/db/database.go:54-101 | the insert succeeds iff the id is new; a duplicate leaves the table unchanged; on success exactly one row is appended, with `zapped_at` = now; ids stay unique; the id is then zapped and every other id keeps its status |
| Ledger.DayStart | internal/db/database.go:106 | the start of the day is a multiple of 86400 with start <= now < start + 86400 |
| Ledger.DayStartUnique | internal/db/database.go:106 | any multiple of 86400 within that window is the day start |
| Ledger.GetTodayTotal | internal/db/database.go:104-121 | the day total is the sum over exactly the rows stamped since the start of the UTC day; with non-negative amounts it lies between 0 and the all-time sum |
| Ledger.GetTodayTotalForAuthor | internal/db/database.go:124-140 | an author's day total is the sum over exactly that author's rows stamped since the start of the UTC day; with non-negative amounts it lies between 0 and the day total over all authors |
| Ledger.AuthorTotalIsSumOfAuthorRows | internal/db/database.go:128 | the per-author conditional sum equals the sum over the rows that pass both the author filter and the `zapped_at >= since` filter |
| Ledger.TotalsAppend | internal/db/database.go:104-140 | appending a row adds its amount to the all-time, today and author totals exactly when it passes their filters |
| Ledger.TodayTotalZeroWhenNoneMatch | internal/db/database.go:104-121 | the day total is 0 when no row is from today |
| Ledger.TotalSinceIsSumOfSelectedRows | internal/db/database.go:104-121 | the day total equals the sum over the rows with `zapped_at >= dayStart` |
| Ledger.TotalsOrdered | internal/db/database.go:124-140 | with non-negative amounts, 0 <= author total <= day total <= all-time total |
| Ledger.AuthorsAreRowAuthors | internal/db/database.go:169 | the authors counted by `COUNT(DISTINCT author_pubkey)` are exactly the authors named by some row |
| Ledger.AuthorsAtMostRows | internal/db/database.go:143-175 | distinct authors are no more than rows, and at least one when there are rows |
| Ledger.GetStats | internal/db/database.go:143-175 | the event count is the number of rows, total sats the sum of every amount, unique authors the number of distinct authors (never more than the rows); an empty table reports zeros; today's total is the sum over exactly the rows stamped since the UTC day start, and with non-negative amounts lies between 0 and total sats |
| Ledger.SortNewestFirst | internal/db/database.go:178-207 | the result is a permutation of the table ordered by `zapped_at` non-increasing |
| Ledger.GetRecentZaps | internal/db/database.go:178-207 | returns `limit` rows (all rows when the limit is negative or too large), newest first, drawn from the table, and no omitted row is newer than a returned one |
| Bot.TryWithRetry | internal/bot/bot.go:302-389 | 1 or 2 attempts; stops at the first success; succeeds iff some attempt succeeds; a failure means both attempts were made |
| Bot.ProcessEvent | internal/bot/bot.go:184-299 | non-kind-1 notes change nothing; an already-zapped note is skipped; a failing `IsZapped`, day-total or author-total query stops the note before any zap, each exactly where the source checks it; each budget rejection happens exactly when its gate fails, the daily gate first, and reports the queried total; a zap is attempted only when both budget gates pass; the ledger grows by exactly the note's row iff the zap succeeded and the insert worked; the reaction result does not affect this |
| Bot.ProcessEventKeepsBudgets | internal/bot/bot.go:215-289 | a recorded zap leaves the day total and the author's total within their limits and every other author's total unchanged |
| Bot.HandleEvents | internal/bot/bot.go:178-182 | the deliveries are processed in order, and the ledger grows by at most one row per delivery |
| Bot.HandleEventsAppends | internal/bot/bot.go:178-182 | handling a stream only appends rows, each for a delivered note |
| Bot.HandleEventsUniqueIds | internal/bot/bot.go:178-212 | no event id is recorded twice, however often a note is delivered |
| Bot.HandleEventsDailyBudget | internal/bot/bot.go:178-289 | within one day, a day total that starts within the daily limit stays within it |
| Bot.HandleEventsAuthorBudget | internal/bot/bot.go:178-289 | within one day, per-author totals that start within the limit stay within it |
| Bot.NpubToHex | internal/bot/bot.go:395-415 | a decoding error, a non-`npub` prefix and an unknown payload type are errors; string payloads pass through; byte payloads become lower-case hex that decodes back to the bytes |
| Bot.NpubsToHex | internal/bot/bot.go:391-421 | succeeds iff every entry converts, keeping length and order; otherwise reports the first failing entry's error |
| Bot.Truncate | internal/bot/bot.go:423-428 | short strings are unchanged; long ones are cut to `maxLen` characters followed by "..." |
| Bot.TruncatePreservesPrefix | internal/bot/bot.go:423-428 | the result keeps the input's first min(len, maxLen) characters, is at most `maxLen + 3` long, and is longer than `maxLen` exactly when the input is |
| Zapper.GetLightningAddress | internal/zap/zapper.go:176-208 | finds an address iff some profile parses with a non-empty `lud16`, returns the first such address, and otherwise reports that none was found |
| Zapper.LightningAddressToLnurl | internal/zap/zapper.go:211-217 | non-empty exactly when the address has one `@`; the URL is then https |
| Zapper.LnurlOfUserAtDomain | internal/zap/zapper.go:211-217 | `user@domain` maps to `https://domain/.well-known/lnurlp/user` |
| Zapper.FetchLnurlMetadata | internal/zap/zapper.go:249-286 | the empty URL fails before any request; otherwise metadata is accepted iff the reply is a 200 whose body parses with tag `payRequest`, and a non-200 status or a wrong tag is reported as such |
| Zapper.Millisats | internal/zap/zapper.go:226 | `amountSats * 1000` exactly, whenever that product fits in Go's 64-bit int |
| Zapper.FetchInvoice | internal/zap/zapper.go:289-344 | an unparsable callback, a transport error, a non-200 reply, an undecodable body, `status` "ERROR" (even with a `pr`) and an empty `pr` are errors; otherwise the `pr` is returned |
| Zapper.RequestInvoice | internal/zap/zapper.go:220-235 | a metadata failure or an out-of-bounds amount is returned with no callback query; within the inclusive millisat bounds the result is exactly the invoice fetch for the metadata's callback, and the callback is queried iff its URL parses |
| Zapper.SendableBoundsInclusive | internal/zap/zapper.go:226-234 | an amount equal to either bound is accepted |
| Zapper.ZapRequestEvent | internal/zap/zapper.go:125-173 | kind 9734; tags `e`, `p`, `amount` in millisats, `relays` = first relay, in that order; content is the comment |
| Zapper.ZapRequestAmountReadsBack | internal/zap/zapper.go:149 | the `amount` tag parses back to `amountSats * 1000` |
| Zapper.CreateZapRequest | internal/zap/zapper.go:125-173 | the pubkey comes from the reconnecting signer; a pubkey failure stops before signing; otherwise the zap request for that pubkey is signed, and a signing failure is reported as such; the signer client carries over from call to call |
| Zapper.ZapNote | internal/zap/zapper.go:68-122 | steps run in the order address, zap request, invoice, payment; a failed zap request or invoice request is returned at its stage with nothing paid; when the address, zap request and invoice all succeed, that invoice is paid, and a wallet error is returned as such; the zap succeeds iff the payment was made and the wallet accepted it; an address without exactly one `@` is never paid |
| Nwc.QueryGet | internal/nwc/nwc.go:60-61 | returns the first value for the key, or "" when the key is absent |
| Nwc.NewClient | internal/nwc/nwc.go:42-83 | rejects, in this order, an unparsable URL, a wrong scheme, a missing relay and a missing secret; otherwise the wallet key is the host and relay and secret are the query values |
| Nwc.NewClientAcceptsWellFormedUrl | internal/nwc/nwc.go:42-83 | every wallet URL with a relay and a secret is accepted |
| Nwc.Connect | internal/nwc/nwc.go:86-103 | connected iff the dial succeeds; a failed dial names the relay |
| Nwc.PublishLoop | internal/nwc/nwc.go:233-254 | at most 3 attempts; every attempt before the last failed with "connection closed"; stopping early means success or another error; one reconnect per "connection closed" failure |
| Nwc.RequestEvent | internal/nwc/nwc.go:205-210 | kind 23194, tagged `p` with the wallet key, content the ciphertext |
| Nwc.ResponseFilter | internal/nwc/nwc.go:259-263 | kind 23195, `e` = request id, limit 1 |
| Nwc.SendRequest | internal/nwc/nwc.go:182-298 | fails at once when not connected; a missing shared secret, a bad client secret and a failed encryption stop before any request, in that order; once encrypted, the request event is built and published; after a successful publish, a failed subscription, a timeout, an undecryptable and an unparsable reply are each reported, and otherwise the parsed reply is returned; each stage runs only after the previous one succeeded |
| Nwc.PayInvoice | internal/nwc/nwc.go:116-144 | sends `pay_invoice` with the invoice; a transport failure or a wallet error becomes a payment failure |
| Nwc.GetBalance | internal/nwc/nwc.go:147-180 | sends `get_balance`; a wallet error, a missing balance or a non-number balance is an error |
| NostrList.FirstTagIndex | internal/nostrlist/list.go:82-114 | the index of the first tag with the given name (and a non-empty value when asked), or the length when none |
| NostrList.ListId | internal/nostrlist/list.go:82-91 | a non-empty list id is one of the event's tag values |
| NostrList.ListIdFromFirstDTag | internal/nostrlist/list.go:82-91 | a non-empty list id is the value of the first `d` tag; without a `d` tag the id is empty |
| NostrList.TitlePrecedence | internal/nostrlist/list.go:100-114 | the title is the first non-empty `name` unless it equals the id; otherwise the first non-empty `title`; otherwise the id |
| NostrList.ListTitle | internal/nostrlist/list.go:100-114 | the title is the list id or one of the event's tag values |
| NostrList.EncodedPMembers | internal/nostrlist/list.go:138-161 | contains exactly the encodable keys of `p` tags |
| NostrList.DecryptContent | internal/nostrlist/list.go:168-191 | invalid private-key hex fails; NIP-44 is used when it decrypts; NIP-04 is the fallback |
| NostrList.Nip04OnlyAsFallback | internal/nostrlist/list.go:176-191 | when NIP-44 cannot decrypt, the result is NIP-04's |
| NostrList.ParseDecryptedTags | internal/nostrlist/list.go:194-201 | malformed JSON yields no tags |
| NostrList.ExtractAllNPubs | internal/nostrlist/list.go:133-210 | members are the union of encodable public and private `p` keys; the list is private iff some private `p` key encodes; empty content is never private |
| NostrList.SelectedFirstOccurrence | internal/nostrlist/list.go:76-130 | each list comes from the first event carrying its id |
| NostrList.SelectedOrder | internal/nostrlist/list.go:76-130 | lists come in order of first appearance |
| NostrList.SelectedComplete | internal/nostrlist/list.go:76-130 | every event with a new non-empty id yields a list |
| NostrList.ProcessEvents | internal/nostrlist/list.go:76-130 | one list per selected event, in order; every list id is non-empty and no two lists share an id |
| NostrList.ProcessEventsIds | internal/nostrlist/list.go:76-130 | list ids are pairwise distinct and are exactly the non-empty ids among the events |
| NostrList.ProcessEventsFirstOccurrence | internal/nostrlist/list.go:93-126 | every list is built from the first event with its id, in first-appearance order |
| NostrList.FetchPrivateLists | internal/nostrlist/list.go:27-73 | rejects, in order, a bad npub, a non-`npub` prefix, a bad nsec and a non-`nsec` prefix; otherwise processes every kind-30000 event by the author, however many arrive |
| NostrList.BufferEvents | internal/nostrlist/list.go:57-63 | sending the events into the 100-slot channel that nothing reads yet blocks exactly when more than 100 would be buffered; otherwise every event is buffered in order |
| NostrList.FetchPrivateListsAsWritten | internal/nostrlist/list.go:27-73 | the function as written blocks exactly when the keys are good and more than 100 events arrive; whenever it returns, it returns what the corrected FetchPrivateLists does |
| NostrList.ManyListEventsBlock | internal/nostrlist/list.go:57-63 | with good keys and 101 fetched events with pairwise distinct ids, the function as written never returns, while the corrected one does |
| NostrList.FindList | internal/nostrlist/list.go:219-223 | the index of the first list with the id, or the length exactly when no list has it |
| NostrList.GetNPubsFromList | internal/nostrlist/list.go:213-226 | passes fetch errors through; returns the members of a list with the id; "not found" exactly when no list has it |
| NostrList.ListFoundIffEventCarriesId | internal/nostrlist/list.go:213-226 | a list id is found iff it is non-empty and some fetched event carries it |
| Reactor.ReactionEvent | internal/reactor/reactor.go:25-40 | kind 7, content from the configuration, tags `e`, `p`, `k`=1 in that order, and a fourth `emoji` tag iff name and URL are both non-empty |
| Reactor.AcceptedCount | internal/reactor/reactor.go:51-63 | the number of relay positions whose publish was accepted (a URL listed twice is tried twice); at most the number of relays; positive iff some relay accepted |
| Reactor.React | internal/reactor/reactor.go:13-70 | disabled means success with nothing signed or published; a pubkey or signing failure publishes nothing and is reported as such; once the pubkey is known and signing succeeds, the reaction is signed and published and the run reports the exact number of accepting relays; when enabled, success iff the signed reaction was accepted by some relay; the run reports how many relays accepted it |
| Config.Validate | config/config.go:48-93 | reports the first violated rule in source order, and nothing only when no rule is violated |
| Config.ValidConfigGuarantees | config/config.go:48-93 | a valid configuration has a relay, a positive amount and daily limit, the required strings, and a consistent reaction setting |
| Config.PerNpubLimitUnchecked | config/config.go:38-93 | the per-author limit does not affect validation |
| Config.MaskNwcUrlAsWritten | config/config.go:126-131 | the original masker fails exactly for 31-character URLs |
| Config.MaskPanicsAt31 | config/config.go:126-131 | a concrete 31-character wallet URL makes the original masker fail |
| Config.MaskNwcUrl | config/config.go:126-131 | short URLs become "**1"; long ones keep their first 15 and last 32 characters around "...", 50 in all |
| Config.MaskAgreesExceptAt31 | config/config.go:126-131 | the corrected masker agrees with the original wherever the original does not fail |
| Bunker.IsSessionError | internal/bunker/reconnecting.go:74-76 | true exactly when the root cause is context cancellation or a deadline |
| Bunker.SentinelFoundAtRoot | internal/bunker/reconnecting.go:74-76 | `errors.Is` against a sentinel holds iff the root cause is that sentinel |
| Bunker.Reconnect | internal/bunker/reconnecting.go:38-50 | the session is replaced only when reopening succeeds; otherwise the client is unchanged and the error is returned |
| Bunker.WithReconnect | internal/bunker/reconnecting.go:79-88 | 1 or 2 calls, the first on the current session, and at most one reconnect; the reconnect happens iff the first call failed with a session error; the retry happens iff that reconnect succeeded, and runs on the new session; the result is always that of the last call made; a failed reconnect keeps the client |
| Bunker.NoReconnectLoop | internal/bunker/reconnecting.go:79-88 | a second session error is returned without another reconnect |
| Bunker.FailedReconnectKeepsOriginalError | internal/bunker/reconnecting.go:81-84 | when reopening fails, the original error is returned and the client is unchanged |
| Bunker.SignEvent | internal/bunker/reconnecting.go:79-88 | signing follows the whole reconnect-once policy stated for WithReconnect: reconnect iff the first signature failed with a session error, retry on the new session iff reopening worked, return the last call's result, keep the client on a failed reconnect |
| Bunker.GetPublicKey | internal/bunker/reconnecting.go:90-99 | fetching the public key follows the whole reconnect-once policy, as for SignEvent |
| Bunker.DecryptNip44 | internal/bunker/reconnecting.go:101-110 | NIP-44 decryption follows the whole reconnect-once policy, as for SignEvent |
| Bunker.DecryptNip04 | internal/bunker/reconnecting.go:112-121 | NIP-04 decryption follows the whole reconnect-once policy, as for SignEvent |

## Left out

- All network I/O: relay connections, pool subscriptions and fetches, HTTP GETs, NIP-46 sessions. Their answers are parameters.
- Cryptography and encodings: NIP-04/NIP-44, shared secrets, event ids and signatures, NIP-19. These are parameters that may fail.
- JSON and URL parsing: the model starts from decoded records.
- Concurrency: the zap and the reaction run in goroutines joined by a WaitGroup, and both use the same bunker client. The model abstracts that shared signer into independent per-attempt outcomes and runs the two one after the other.
- Timing: mutexes, the 4-hour keepalive ticker, `time.Sleep` between retries and context timeouts are not modelled. A note is handled at a single clock reading.
- The float64 conversion of the wallet balance; only "missing or not a number is an error" is kept.
- `internal/bunker/client.go`, the CLI under `cmd/`, `main.go`, config loading, the logger, the spinner and `Config.Print`, which are not part of this model.
- Log and console output, including the `event.PubKey[:16]` slices in console messages.
- Bot.ProcessEvent: a failed insert is modelled as a flag. The source only logs it.
- Bot.ProcessEvent: the zap and reaction outcomes are per-attempt booleans, not calls into `Zapper.ZapNote` and `Reactor.React`. The source passes a `*bunker.Client` where `ZapNote` declares a `*bunker.ReconnectingClient`, so that link is not modelled.
- Bot.HandleEventsDailyBudget: stated for deliveries within one UTC day. Across days the limit applies per day, and a clock that runs backwards is not covered.
- Ledger.GetStats: does not model SQLite's 64-bit SUM overflow. Totals are unbounded integers, as is the Go `int` arithmetic in the budget gates.
- Ledger.GetRecentZaps: SQLite leaves the order of rows with equal `zapped_at` unspecified. The model lists them in insertion order and only promises non-increasing timestamps.
- Bot.Truncate: strings are sequences of bytes-as-characters throughout the model, so the cut falls at a byte position as Go's does; whether that splits a UTF-8 sequence is not tracked. `maxLen` is a natural number, while the only caller passes 80.
- Zapper.CreateZapRequest and Zapper.ZapNote: require a non-empty relay list. CreateZapRequest reads `relays[0]`, which panics on an empty list. ZapNote would not reach it without relays: with no relay no profile arrives, so the address lookup fails first (NoLightningAddress). The requirement is harmless because the configuration is validated first and a valid configuration always has a relay (Config.ValidConfigGuarantees).
- Zapper.Millisats: `amountSats*1000` wraps as Go's 64-bit int does; the amount text uses the same wrapped value.
- NostrList.DecryptContent: the NIP-04 fallback is an oracle given the raw private key, as the source passes it. go-nostr's NIP-04 decryption expects the ECDH shared secret there, so the fallback probably never decrypts a genuine NIP-04 list. That library is not part of this model, so this is not claimed as a finding.
- NostrList.ExtractAllNPubs: members are a set, because the source gathers them in a map whose iteration order is random.
- NostrList.GetNPubsFromList: modelled by its own declaration; its callers' argument lists do not match it.
- Nwc.PublishLoop: the reconnect after "connection closed" is only counted. Its result is not inspected, and a failed reconnect is not modelled.

## Findings

| source | as written | input that shows it | evidently intended | confidence | as-written member | corrected member |
|---|---|---|---|---|---|---|
| config/config.go:126-131 | the guard `len(url) <= 30` lets a 31-character URL through to `url[len(url)-32:]`, whose start index is -1 | any 31-character URL, e.g. `nostr+walletconnect://abcdefghi` | short URLs (fewer than 32 characters) are masked as "**1" | not executed; high | Config.MaskNwcUrlAsWritten, Config.MaskPanicsAt31 | Config.MaskNwcUrl |
| internal/nostrlist/list.go:57-63 | every fetched event is sent into a channel buffered to 100 before anything reads it, so the 101st send blocks forever; the 10-second context does not unblock a plain channel send | an author whose relays return 101 distinct kind-30000 events | all fetched events are collected and processed | not executed; high | NostrList.FetchPrivateListsAsWritten, NostrList.ManyListEventsBlock | NostrList.FetchPrivateLists |
