/** The bot's event pipeline: each incoming note passes the kind filter,
    the "already zapped" check and the two budget gates before a zap (and,
    if enabled, a reaction) is attempted with one retry; a successful zap is
    recorded in the ledger. Network, signing and payment are reduced to the
    success or failure of each attempt. */
module Bot {
  import opened Base
  import Text
  import Ledger
  import Config

  const TextNoteKind: int := 1
  /** `tryZap` and `tryReact` make one attempt and one retry. */
  const MaxAttempts: nat := 2
  const PreviewLength: nat := 80

  /** A note as delivered by the relay subscription. */
  datatype Note = Note(id: string, pubkey: string, kind: int, content: string, createdAt: int)

  /** Which ledger calls fail with an I/O error while handling one note. */
  datatype LedgerFaults = LedgerFaults(isZappedFails: bool, todayFails: bool, authorFails: bool, insertFails: bool)

  /** One delivery: the note, the wall clock when it is handled, the ledger
      faults, and whether zap / reaction attempt `n` (1-based) succeeds. */
  datatype Delivery = Delivery(note: Note, now: int, faults: LedgerFaults,
                               zapAttempt: nat -> bool, reactAttempt: nat -> bool)

  // -------------------------------------------------------------- retries

  datatype Retried = Retried(ok: bool, attempts: nat)

  /** Attempts `from`..`MaxAttempts`, stopping at the first success. */
  function TryFrom(attempt: nat -> bool, from: nat): (r: Retried)
    requires 1 <= from <= MaxAttempts
    ensures from <= r.attempts <= MaxAttempts
    ensures r.ok == attempt(r.attempts)
    ensures forall n :: from <= n < r.attempts ==> !attempt(n)
    ensures r.ok <==> exists n :: from <= n <= MaxAttempts && attempt(n)
    decreases MaxAttempts - from
  {
    if attempt(from) || from == MaxAttempts then Retried(attempt(from), from)
    else TryFrom(attempt, from + 1)
  }

  /** `tryZap` / `tryReact`: succeed at the first successful attempt; give
      up after `MaxAttempts` failures. */
  function TryWithRetry(attempt: nat -> bool): (r: Retried)
    ensures 1 <= r.attempts <= MaxAttempts
    ensures r.ok <==> exists n :: 1 <= n <= MaxAttempts && attempt(n)
    ensures r.ok ==> attempt(r.attempts) && forall n :: 1 <= n < r.attempts ==> !attempt(n)
    ensures !r.ok ==> r.attempts == MaxAttempts
  {
    TryFrom(attempt, 1)
  }

  // ------------------------------------------------------- processEvent

  datatype Outcome =
    | IgnoredKind
    | LedgerUnavailable
    | AlreadyZapped
    | DailyBudgetExceeded(todayTotal: int)
    | AuthorBudgetExceeded(authorTotal: int)
    | Attempted(zapped: bool, zapAttempts: nat, reacted: bool, reactAttempts: nat, recorded: bool)

  datatype Step = Step(table: Ledger.Table, outcome: Outcome)

  /** The note passes every gate of `processEvent` against ledger `t`. */
  predicate Admitted(cfg: Config.Config, t: Ledger.Table, d: Delivery) {
    d.note.kind == TextNoteKind
    && !Ledger.IsZapped(t, d.note.id)
    && Ledger.GetTodayTotal(t, d.now) + cfg.zapAmount <= cfg.dailyLimit
    && Ledger.GetTodayTotalForAuthor(t, d.note.pubkey, d.now) + cfg.zapAmount <= cfg.perNpubLimit
  }

  /** The ledger row a successful zap of the delivered note records. */
  function RowFor(cfg: Config.Config, d: Delivery): Ledger.ZappedEvent {
    Ledger.ZappedEvent(d.note.id, d.note.pubkey, d.now, cfg.zapAmount, d.note.createdAt)
  }

  /** `processEvent`. */
  function ProcessEvent(cfg: Config.Config, t: Ledger.Table, d: Delivery): (s: Step)
    ensures d.note.kind != TextNoteKind ==> s == Step(t, IgnoredKind)
    ensures s.table == t || (s.outcome.Attempted? && s.outcome.recorded && s.table == t + [RowFor(cfg, d)])
    ensures s.outcome.Attempted? && s.outcome.recorded ==> s.table == t + [RowFor(cfg, d)]
    ensures s.outcome.Attempted? ==> Admitted(cfg, t, d)
    ensures (Admitted(cfg, t, d) && !d.faults.isZappedFails && !d.faults.todayFails && !d.faults.authorFails)
              ==> s.outcome.Attempted?
    ensures (d.note.kind == TextNoteKind && !d.faults.isZappedFails && Ledger.IsZapped(t, d.note.id))
              <==> s.outcome == AlreadyZapped
    ensures s.outcome.Attempted? ==> !d.faults.isZappedFails && !d.faults.todayFails && !d.faults.authorFails
    ensures s.outcome == LedgerUnavailable <==>
              (d.note.kind == TextNoteKind
               && (d.faults.isZappedFails
                   || (!Ledger.IsZapped(t, d.note.id)
                       && (d.faults.todayFails
                           || (Ledger.GetTodayTotal(t, d.now) + cfg.zapAmount <= cfg.dailyLimit && d.faults.authorFails)))))
    ensures s.outcome.DailyBudgetExceeded? <==>
              (d.note.kind == TextNoteKind && !d.faults.isZappedFails && !Ledger.IsZapped(t, d.note.id)
               && !d.faults.todayFails && Ledger.GetTodayTotal(t, d.now) + cfg.zapAmount > cfg.dailyLimit)
    ensures s.outcome.DailyBudgetExceeded? ==> s.outcome.todayTotal == Ledger.GetTodayTotal(t, d.now)
    ensures s.outcome.AuthorBudgetExceeded? <==>
              (d.note.kind == TextNoteKind && !d.faults.isZappedFails && !Ledger.IsZapped(t, d.note.id)
               && !d.faults.todayFails && Ledger.GetTodayTotal(t, d.now) + cfg.zapAmount <= cfg.dailyLimit
               && !d.faults.authorFails
               && Ledger.GetTodayTotalForAuthor(t, d.note.pubkey, d.now) + cfg.zapAmount > cfg.perNpubLimit)
    ensures s.outcome.AuthorBudgetExceeded? ==>
              s.outcome.authorTotal == Ledger.GetTodayTotalForAuthor(t, d.note.pubkey, d.now)
    ensures s.outcome.DailyBudgetExceeded? ==> s.outcome.todayTotal + cfg.zapAmount > cfg.dailyLimit
    ensures s.outcome.AuthorBudgetExceeded? ==>
              (Ledger.GetTodayTotal(t, d.now) + cfg.zapAmount <= cfg.dailyLimit
               && s.outcome.authorTotal + cfg.zapAmount > cfg.perNpubLimit)
    ensures s.outcome.Attempted? ==> (s.outcome.zapped <==> exists n :: 1 <= n <= MaxAttempts && d.zapAttempt(n))
    ensures s.outcome.Attempted? ==> (s.outcome.recorded <==> s.outcome.zapped && !d.faults.insertFails)
    ensures s.outcome.Attempted? ==>
              (s.outcome.reacted <==> cfg.reaction.enabled && exists n :: 1 <= n <= MaxAttempts && d.reactAttempt(n))
    ensures s.outcome.Attempted? && !cfg.reaction.enabled ==> s.outcome.reactAttempts == 0
    ensures Ledger.UniqueIds(t) ==> Ledger.UniqueIds(s.table)
  {
    var note := d.note;
    if note.kind != TextNoteKind then Step(t, IgnoredKind)
    else if d.faults.isZappedFails then Step(t, LedgerUnavailable)
    else if Ledger.IsZapped(t, note.id) then Step(t, AlreadyZapped)
    else if d.faults.todayFails then Step(t, LedgerUnavailable)
    else
      var today := Ledger.GetTodayTotal(t, d.now);
      if today + cfg.zapAmount > cfg.dailyLimit then Step(t, DailyBudgetExceeded(today))
      else if d.faults.authorFails then Step(t, LedgerUnavailable)
      else
        var authorTotal := Ledger.GetTodayTotalForAuthor(t, note.pubkey, d.now);
        if authorTotal + cfg.zapAmount > cfg.perNpubLimit then Step(t, AuthorBudgetExceeded(authorTotal))
        else
          var zap := TryWithRetry(d.zapAttempt);
          var react := if cfg.reaction.enabled then TryWithRetry(d.reactAttempt) else Retried(false, 0);
          if zap.ok && !d.faults.insertFails then
            var w := Ledger.MarkZapped(t, note.id, note.pubkey, cfg.zapAmount, note.createdAt, d.now);
            Step(w.table, Attempted(true, zap.attempts, react.ok, react.attempts, w.error.None?))
          else
            Step(t, Attempted(zap.ok, zap.attempts, react.ok, react.attempts, false))
  }

  /** A recorded zap keeps today's totals within both budgets, and leaves
      every other author's total unchanged. */
  lemma ProcessEventKeepsBudgets(cfg: Config.Config, t: Ledger.Table, d: Delivery, since: int)
    requires since == Ledger.DayStart(d.now)
    ensures var s := ProcessEvent(cfg, t, d);
      s.table != t ==> (Ledger.TotalSince(s.table, since) <= cfg.dailyLimit
                        && Ledger.AuthorTotalSince(s.table, d.note.pubkey, since) <= cfg.perNpubLimit)
    ensures var s := ProcessEvent(cfg, t, d);
      forall a :: a != d.note.pubkey ==> Ledger.AuthorTotalSince(s.table, a, since) == Ledger.AuthorTotalSince(t, a, since)
    ensures var s := ProcessEvent(cfg, t, d);
      Ledger.TotalSince(s.table, since) <= cfg.dailyLimit || s.table == t
  {
  }

  // -------------------------------------------------------- handleEvents

  /** `handleEvents`: the deliveries are processed one after another. */
  function HandleEvents(cfg: Config.Config, t: Ledger.Table, ds: seq<Delivery>): (r: Ledger.Table)
    ensures |t| <= |r| <= |t| + |ds|
    decreases |ds|
  {
    if |ds| == 0 then t else HandleEvents(cfg, ProcessEvent(cfg, t, ds[0]).table, ds[1..])
  }

  /** The ledger only grows, by rows for delivered notes. */
  lemma {:induction false} HandleEventsAppends(cfg: Config.Config, t: Ledger.Table, ds: seq<Delivery>)
    ensures |t| <= |HandleEvents(cfg, t, ds)| <= |t| + |ds|
    ensures HandleEvents(cfg, t, ds)[..|t|] == t
    ensures forall j :: |t| <= j < |HandleEvents(cfg, t, ds)| ==>
              exists i :: 0 <= i < |ds| && HandleEvents(cfg, t, ds)[j] == RowFor(cfg, ds[i])
    decreases |ds|
  {
    if |ds| > 0 {
      var t1 := ProcessEvent(cfg, t, ds[0]).table;
      HandleEventsAppends(cfg, t1, ds[1..]);
      var r := HandleEvents(cfg, t, ds);
      assert r == HandleEvents(cfg, t1, ds[1..]);
      assert r[..|t1|] == t1;
      assert r[..|t|] == t1[..|t|];
      forall j | |t| <= j < |r| ensures exists i :: 0 <= i < |ds| && r[j] == RowFor(cfg, ds[i]) {
        if j < |t1| {
          assert t1 == t + [RowFor(cfg, ds[0])];
          assert r[j] == t1[j] == RowFor(cfg, ds[0]);
        } else {
          var i :| 0 <= i < |ds[1..]| && r[j] == RowFor(cfg, ds[1..][i]);
          assert r[j] == RowFor(cfg, ds[i + 1]);
        }
      }
    }
  }

  /** No event id is ever recorded twice, however often a note is delivered. */
  lemma {:induction false} HandleEventsUniqueIds(cfg: Config.Config, t: Ledger.Table, ds: seq<Delivery>)
    requires Ledger.UniqueIds(t)
    ensures Ledger.UniqueIds(HandleEvents(cfg, t, ds))
    decreases |ds|
  {
    if |ds| > 0 {
      HandleEventsUniqueIds(cfg, ProcessEvent(cfg, t, ds[0]).table, ds[1..]);
    }
  }

  /** Within one day, the day's total never exceeds the daily limit once it
      starts within it. */
  lemma {:induction false} HandleEventsDailyBudget(cfg: Config.Config, t: Ledger.Table, ds: seq<Delivery>, day: int)
    requires forall i :: 0 <= i < |ds| ==> Ledger.DayStart(ds[i].now) == day
    requires Ledger.TotalSince(t, day) <= cfg.dailyLimit
    ensures Ledger.TotalSince(HandleEvents(cfg, t, ds), day) <= cfg.dailyLimit
    decreases |ds|
  {
    if |ds| > 0 {
      ProcessEventKeepsBudgets(cfg, t, ds[0], day);
      HandleEventsDailyBudget(cfg, ProcessEvent(cfg, t, ds[0]).table, ds[1..], day);
    }
  }

  /** Within one day, no author's total exceeds the per-author limit once
      every author starts within it. */
  lemma {:induction false} HandleEventsAuthorBudget(cfg: Config.Config, t: Ledger.Table, ds: seq<Delivery>, day: int)
    requires forall i :: 0 <= i < |ds| ==> Ledger.DayStart(ds[i].now) == day
    requires forall a :: Ledger.AuthorTotalSince(t, a, day) <= cfg.perNpubLimit
    ensures forall a :: Ledger.AuthorTotalSince(HandleEvents(cfg, t, ds), a, day) <= cfg.perNpubLimit
    decreases |ds|
  {
    if |ds| > 0 {
      var t1 := ProcessEvent(cfg, t, ds[0]).table;
      ProcessEventKeepsBudgets(cfg, t, ds[0], day);
      assert forall a :: Ledger.AuthorTotalSince(t1, a, day) <= cfg.perNpubLimit by {
        forall a ensures Ledger.AuthorTotalSince(t1, a, day) <= cfg.perNpubLimit {
          if a != ds[0].note.pubkey || t1 == t {
          } else {
            assert Ledger.AuthorTotalSince(t1, ds[0].note.pubkey, day) <= cfg.perNpubLimit;
          }
        }
      }
      HandleEventsAuthorBudget(cfg, t1, ds[1..], day);
    }
  }

  // ---------------------------------------------------------- npubsToHex

  /** What NIP-19 decoding yields as payload: a hex string, raw bytes, or a
      value of another type. */
  datatype Nip19Data = HexString(hex: string) | Bytes(bytes: seq<Byte>) | OtherData

  datatype NpubError = DecodeFailed(npub: string) | UnexpectedPrefix(prefix: string) | UnexpectedType

  /** The hex public key of one decoded npub. */
  function NpubToHex(npub: string, decoded: Option<(string, Nip19Data)>): (r: Result<string, NpubError>)
    ensures decoded.None? <==> r == Err(DecodeFailed(npub))
    ensures decoded.Some? && decoded.value.0 != "npub" ==> r == Err(UnexpectedPrefix(decoded.value.0))
    ensures r.Ok? ==> decoded.Some? && decoded.value.0 == "npub" && !decoded.value.1.OtherData?
    ensures r.Ok? && decoded.value.1.HexString? ==> r.value == decoded.value.1.hex
    ensures r.Ok? && decoded.value.1.Bytes? ==>
              (|r.value| == 2 * |decoded.value.1.bytes|
               && (forall i :: 0 <= i < |r.value| ==> Text.IsLowerHex(r.value[i]))
               && Text.HexDecode(r.value) == decoded.value.1.bytes)
  {
    match decoded
    case None => Err(DecodeFailed(npub))
    case Some((prefix, data)) =>
      if prefix != "npub" then Err(UnexpectedPrefix(prefix))
      else
        match data
        case HexString(h) => Ok(h)
        case Bytes(b) => Text.HexRoundTrip(b); Ok(Text.HexEncode(b))
        case OtherData => Err(UnexpectedType)
  }

  /** `npubsToHex`: converts every npub in order, or reports the first one
      that fails. */
  method NpubsToHex(npubs: seq<string>, decode: string -> Option<(string, Nip19Data)>) returns (r: Result<seq<string>, NpubError>)
    ensures r.Ok? <==> forall i :: 0 <= i < |npubs| ==> NpubToHex(npubs[i], decode(npubs[i])).Ok?
    ensures r.Ok? ==> |r.value| == |npubs|
    ensures r.Ok? ==> forall i :: 0 <= i < |npubs| ==> r.value[i] == NpubToHex(npubs[i], decode(npubs[i])).value
    ensures r.Err? ==> exists i :: 0 <= i < |npubs| && NpubToHex(npubs[i], decode(npubs[i])) == Err(r.error)
                        && forall j :: 0 <= j < i ==> NpubToHex(npubs[j], decode(npubs[j])).Ok?
  {
    var pubkeys: seq<string> := [];
    var k := 0;
    while k < |npubs|
      invariant 0 <= k <= |npubs|
      invariant |pubkeys| == k
      invariant forall i :: 0 <= i < k ==> NpubToHex(npubs[i], decode(npubs[i])).Ok?
      invariant forall i :: 0 <= i < k ==> pubkeys[i] == NpubToHex(npubs[i], decode(npubs[i])).value
    {
      var one := NpubToHex(npubs[k], decode(npubs[k]));
      if one.Err? {
        return Err(one.error);
      }
      pubkeys := pubkeys + [one.value];
      k := k + 1;
    }
    return Ok(pubkeys);
  }

  // ------------------------------------------------------------- truncate

  /** `truncate`: strings longer than `maxLen` are cut and marked with "...". */
  function Truncate(s: string, maxLen: nat): (r: string)
    ensures |s| <= maxLen ==> r == s
    ensures |s| > maxLen ==> |r| == maxLen + 3 && r[..maxLen] == s[..maxLen] && r[maxLen..] == "..."
  {
    if |s| <= maxLen then s else s[..maxLen] + "..."
  }

  /** The preview keeps the first `min(|s|, maxLen)` characters of `s`, is
      never longer than `maxLen + 3`, and is longer than `maxLen` exactly
      when `s` is. */
  lemma TruncatePreservesPrefix(s: string, maxLen: nat)
    ensures var n := if |s| <= maxLen then |s| else maxLen;
      n <= |Truncate(s, maxLen)| <= maxLen + 3 && Truncate(s, maxLen)[..n] == s[..n]
    ensures |Truncate(s, maxLen)| > maxLen <==> |s| > maxLen
  {
  }
}
