/** The zap ledger: the `zapped_events` table keyed by event id, and the
    queries the bot and the `stats` command run against it. The table is a
    sequence of rows in insertion order; every query is a pure function of it. */
module Ledger {
  import opened Base

  const SecondsPerDay: int := 86400

  /** One row of `zapped_events`. */
  datatype ZappedEvent = ZappedEvent(
    eventId: string,
    authorPubkey: string,
    zappedAt: int,
    amount: int,
    eventCreatedAt: int)

  type Table = seq<ZappedEvent>

  datatype LedgerError = DuplicateEventId(eventId: string)

  /** The primary-key constraint on `event_id`. */
  predicate UniqueIds(t: Table) {
    forall i, j :: 0 <= i < j < |t| ==> t[i].eventId != t[j].eventId
  }

  predicate NonNegativeAmounts(t: Table) {
    forall i :: 0 <= i < |t| ==> t[i].amount >= 0
  }

  /** `IsZapped`: `SELECT EXISTS(... WHERE event_id = ?)`. */
  function IsZapped(t: Table, eventId: string): (b: bool)
    ensures b <==> exists i :: 0 <= i < |t| && t[i].eventId == eventId
  {
    if |t| == 0 then false
    else t[|t| - 1].eventId == eventId || IsZapped(t[..|t| - 1], eventId)
  }

  /** Result of an insert: the table afterwards, and the error if it failed. */
  datatype Write = Write(table: Table, error: Option<LedgerError>)

  /** `MarkZapped`: insert a row stamped with the current time `now`. The
      primary key makes a second insert of the same event id fail and leave
      the table as it was. */
  function MarkZapped(t: Table, eventId: string, author: string, amount: int, eventCreatedAt: int, now: int): (w: Write)
    ensures w.error.None? <==> !IsZapped(t, eventId)
    ensures w.error.Some? ==> w.table == t
    ensures w.error.None? ==> w.table == t + [ZappedEvent(eventId, author, now, amount, eventCreatedAt)]
    ensures UniqueIds(t) ==> UniqueIds(w.table)
    ensures IsZapped(w.table, eventId)
    ensures forall other :: other != eventId ==> IsZapped(w.table, other) == IsZapped(t, other)
  {
    if IsZapped(t, eventId) then
      Write(t, Some(DuplicateEventId(eventId)))
    else
      var t' := t + [ZappedEvent(eventId, author, now, amount, eventCreatedAt)];
      assert t'[..|t|] == t;
      Write(t', None)
  }

  /** Start of the UTC day containing `now`: `time.Now().UTC().Truncate(24h)`.
      Go truncates toward the past, which is Dafny's Euclidean remainder. */
  function DayStart(now: int): (d: int)
    ensures d % SecondsPerDay == 0
    ensures d <= now < d + SecondsPerDay
  {
    now - now % SecondsPerDay
  }

  /** The day start is the only day boundary with `d <= now < d + 86400`. */
  lemma DayStartUnique(now: int, d: int)
    requires d % SecondsPerDay == 0 && d <= now < d + SecondsPerDay
    ensures d == DayStart(now)
  {
  }

  /** Sum of every amount: `SELECT SUM(amount)` with NULL read as 0. */
  function SumAmounts(t: Table): int
  {
    if |t| == 0 then 0 else SumAmounts(t[..|t| - 1]) + t[|t| - 1].amount
  }

  /** `SUM(amount) ... WHERE zapped_at >= since`, NULL read as 0. */
  function TotalSince(t: Table, since: int): int
  {
    if |t| == 0 then 0
    else TotalSince(t[..|t| - 1], since) + (if t[|t| - 1].zappedAt >= since then t[|t| - 1].amount else 0)
  }

  /** `SUM(amount) ... WHERE author_pubkey = ? AND zapped_at >= since`. */
  function AuthorTotalSince(t: Table, author: string, since: int): int
  {
    if |t| == 0 then 0
    else
      var last := t[|t| - 1];
      AuthorTotalSince(t[..|t| - 1], author, since) + (if last.authorPubkey == author && last.zappedAt >= since then last.amount else 0)
  }

  /** `GetTodayTotal` at wall-clock time `now`: the sum over exactly the rows
      stamped since the start of the UTC day. */
  function GetTodayTotal(t: Table, now: int): (total: int)
    ensures total == SumAmounts(RowsSince(t, DayStart(now)))
    ensures NonNegativeAmounts(t) ==> 0 <= total <= SumAmounts(t)
  {
    TotalSinceIsSumOfSelectedRows(t, DayStart(now));
    TodayWithinAllTime(t, now);
    TotalSince(t, DayStart(now))
  }

  /** `GetTodayTotalForAuthor` at wall-clock time `now`: the sum over exactly
      the author's rows stamped since the start of the UTC day, never more
      than the day's total over all authors. */
  function GetTodayTotalForAuthor(t: Table, author: string, now: int): (total: int)
    ensures total == SumAmounts(RowsSince(RowsBy(t, author), DayStart(now)))
    ensures NonNegativeAmounts(t) ==> 0 <= total <= GetTodayTotal(t, now)
  {
    AuthorTotalIsSumOfAuthorRows(t, author, DayStart(now));
    AuthorWithinToday(t, author, now);
    AuthorTotalSince(t, author, DayStart(now))
  }

  /** Appending a row adds its amount to every total whose filter it passes. */
  lemma TotalsAppend(t: Table, row: ZappedEvent, author: string, since: int)
    ensures TotalSince(t + [row], since) == TotalSince(t, since) + (if row.zappedAt >= since then row.amount else 0)
    ensures AuthorTotalSince(t + [row], author, since)
         == AuthorTotalSince(t, author, since) + (if row.authorPubkey == author && row.zappedAt >= since then row.amount else 0)
    ensures SumAmounts(t + [row]) == SumAmounts(t) + row.amount
  {
  }

  /** A total over rows none of which matches is 0 (SQL's NULL sum). */
  lemma {:induction false} TodayTotalZeroWhenNoneMatch(t: Table, now: int)
    requires forall i :: 0 <= i < |t| ==> t[i].zappedAt < DayStart(now)
    ensures GetTodayTotal(t, now) == 0
  {
    if |t| > 0 {
      TodayTotalZeroWhenNoneMatch(t[..|t| - 1], now);
    }
  }

  /** The per-author total is bounded by the global total, and both by the
      all-time sum, when amounts are non-negative. */
  lemma {:induction false} TotalsOrdered(t: Table, author: string, since: int)
    requires NonNegativeAmounts(t)
    ensures 0 <= AuthorTotalSince(t, author, since) <= TotalSince(t, since) <= SumAmounts(t)
  {
    if |t| > 0 {
      TotalsOrdered(t[..|t| - 1], author, since);
    }
  }

  /** `TotalSince` is the sum over exactly the rows the WHERE clause selects. */
  function RowsSince(t: Table, since: int): (rows: Table)
    ensures forall r :: r in rows <==> r in t && r.zappedAt >= since
  {
    if |t| == 0 then []
    else
      var rest := RowsSince(t[..|t| - 1], since);
      var last := t[|t| - 1];
      assert forall r :: r in t <==> r in t[..|t| - 1] || r == last by {
        assert t == t[..|t| - 1] + [last];
      }
      if last.zappedAt >= since then rest + [last] else rest
  }

  /** The rows naming `author`, in table order: `WHERE author_pubkey = ?`. */
  function RowsBy(t: Table, author: string): (rows: Table)
    ensures forall r :: r in rows <==> r in t && r.authorPubkey == author
  {
    if |t| == 0 then []
    else
      var rest := RowsBy(t[..|t| - 1], author);
      var last := t[|t| - 1];
      assert forall r :: r in t <==> r in t[..|t| - 1] || r == last by {
        assert t == t[..|t| - 1] + [last];
      }
      if last.authorPubkey == author then rest + [last] else rest
  }

  /** `AuthorTotalSince` is the sum over exactly the rows both filters select. */
  lemma {:induction false} AuthorTotalIsSumOfAuthorRows(t: Table, author: string, since: int)
    ensures AuthorTotalSince(t, author, since) == SumAmounts(RowsSince(RowsBy(t, author), since))
  {
    if |t| > 0 {
      var init := t[..|t| - 1];
      var last := t[|t| - 1];
      AuthorTotalIsSumOfAuthorRows(init, author, since);
      if last.authorPubkey == author {
        var mine := RowsBy(init, author);
        assert RowsBy(t, author) == mine + [last];
        SelectedRowsAppend(mine, last, since);
      }
    }
  }

  /** Filtering a table with one more row sums to the old sum plus that
      row's amount when it passes the filter. */
  lemma SelectedRowsAppend(t: Table, row: ZappedEvent, since: int)
    ensures SumAmounts(RowsSince(t + [row], since))
         == SumAmounts(RowsSince(t, since)) + (if row.zappedAt >= since then row.amount else 0)
  {
    assert (t + [row])[..|t|] == t;
    if row.zappedAt >= since {
      TotalsAppend(RowsSince(t, since), row, "", since);
    }
  }

  lemma {:induction false} TotalSinceIsSumOfSelectedRows(t: Table, since: int)
    ensures TotalSince(t, since) == SumAmounts(RowsSince(t, since))
  {
    if |t| > 0 {
      TotalSinceIsSumOfSelectedRows(t[..|t| - 1], since);
      var rest := RowsSince(t[..|t| - 1], since);
      var last := t[|t| - 1];
      if last.zappedAt >= since {
        TotalsAppend(rest, last, "", since);
      }
    }
  }

  /** The distinct authors of the table, gathered row by row; its size is
      `COUNT(DISTINCT author_pubkey)`. */
  function Authors(t: Table): set<string> {
    if |t| == 0 then {} else Authors(t[..|t| - 1]) + {t[|t| - 1].authorPubkey}
  }

  /** An author is in the set exactly when some row names it. */
  lemma {:induction false} AuthorsAreRowAuthors(t: Table)
    ensures forall a :: a in Authors(t) <==> exists i :: 0 <= i < |t| && t[i].authorPubkey == a
  {
    if |t| > 0 {
      var init := t[..|t| - 1];
      AuthorsAreRowAuthors(init);
      forall a | a in Authors(t) ensures exists i :: 0 <= i < |t| && t[i].authorPubkey == a {
        if a != t[|t| - 1].authorPubkey {
          assert a in Authors(init);
          var i :| 0 <= i < |init| && init[i].authorPubkey == a;
          assert t[i] == init[i];
        }
      }
      forall a | exists i :: 0 <= i < |t| && t[i].authorPubkey == a ensures a in Authors(t) {
        var i :| 0 <= i < |t| && t[i].authorPubkey == a;
        if i < |t| - 1 {
          assert init[i] == t[i];
        }
      }
    }
  }

  lemma {:induction false} AuthorsAtMostRows(t: Table)
    ensures |Authors(t)| <= |t|
    ensures |t| > 0 ==> |Authors(t)| >= 1
  {
    if |t| > 0 {
      AuthorsAtMostRows(t[..|t| - 1]);
      var last := t[|t| - 1].authorPubkey;
      if last in Authors(t[..|t| - 1]) {
        assert Authors(t) == Authors(t[..|t| - 1]);
      }
    }
  }

  lemma AuthorWithinToday(t: Table, author: string, now: int)
    ensures NonNegativeAmounts(t) ==> 0 <= AuthorTotalSince(t, author, DayStart(now)) <= TotalSince(t, DayStart(now))
  {
    if NonNegativeAmounts(t) {
      TotalsOrdered(t, author, DayStart(now));
    }
  }

  lemma TodayWithinAllTime(t: Table, now: int)
    ensures NonNegativeAmounts(t) ==> 0 <= TotalSince(t, DayStart(now)) <= SumAmounts(t)
  {
    if NonNegativeAmounts(t) {
      TotalsOrdered(t, "", DayStart(now));
    }
  }

  /** What `GetStats` reports. */
  datatype Stats = Stats(totalZapped: nat, totalSats: int, todayTotal: int, uniqueAuthors: nat)

  /** `GetStats` at wall-clock time `now`. */
  function GetStats(t: Table, now: int): (s: Stats)
    ensures s.totalZapped == |t|
    ensures s.totalSats == SumAmounts(t)
    ensures s.uniqueAuthors == |Authors(t)|
    ensures s.uniqueAuthors <= s.totalZapped
    ensures |t| == 0 ==> s.totalZapped == 0 && s.totalSats == 0 && s.todayTotal == 0 && s.uniqueAuthors == 0
    ensures s.totalZapped > 0 ==> s.uniqueAuthors >= 1
    ensures NonNegativeAmounts(t) ==> 0 <= s.todayTotal <= s.totalSats
    ensures s.todayTotal == SumAmounts(RowsSince(t, DayStart(now)))
  {
    AuthorsAtMostRows(t);
    Stats(|t|, SumAmounts(t), GetTodayTotal(t, now), |Authors(t)|)
  }

  /** Rows ordered by `zapped_at`, newest first. */
  predicate SortedNewestFirst(s: seq<ZappedEvent>) {
    forall i, j :: 0 <= i < j < |s| ==> s[i].zappedAt >= s[j].zappedAt
  }

  function InsertNewestFirst(x: ZappedEvent, s: seq<ZappedEvent>): (r: seq<ZappedEvent>)
    requires SortedNewestFirst(s)
    ensures SortedNewestFirst(r)
    ensures multiset(r) == multiset(s) + multiset{x}
    ensures |r| == |s| + 1
    ensures r[0] == x || (|s| > 0 && r[0] == s[0])
  {
    if |s| == 0 || s[0].zappedAt <= x.zappedAt then [x] + s
    else
      var rest := InsertNewestFirst(x, s[1..]);
      assert s == [s[0]] + s[1..];
      assert rest[0].zappedAt <= s[0].zappedAt;
      SortedCons(s[0], rest);
      [s[0]] + rest
  }

  /** A newest-first sequence stays so under a head at least as new as its first row. */
  lemma SortedCons(h: ZappedEvent, s: seq<ZappedEvent>)
    requires SortedNewestFirst(s)
    requires |s| > 0 ==> s[0].zappedAt <= h.zappedAt
    ensures SortedNewestFirst([h] + s)
  {
  }

  function SortNewestFirst(t: Table): (r: seq<ZappedEvent>)
    ensures |r| == |t|
    ensures SortedNewestFirst(r)
    ensures multiset(r) == multiset(t)
  {
    if |t| == 0 then []
    else
      assert t == [t[0]] + t[1..];
      InsertNewestFirst(t[0], SortNewestFirst(t[1..]))
  }

  /** A prefix of a newest-first sequence is at least as new as everything after it. */
  lemma PrefixIsNewest(s: seq<ZappedEvent>, k: nat)
    requires SortedNewestFirst(s) && k <= |s|
    ensures forall x, y :: x in s && x !in s[..k] && y in s[..k] ==> x.zappedAt <= y.zappedAt
  {
  }

  /** A prefix of a newest-first sequence is newest-first, and a sub-multiset. */
  lemma SortedPrefix(s: seq<ZappedEvent>, k: nat)
    requires SortedNewestFirst(s) && k <= |s|
    ensures SortedNewestFirst(s[..k])
    ensures multiset(s[..k]) <= multiset(s)
  {
    assert s == s[..k] + s[k..];
  }

  /** Sequences with the same multiset have the same members. */
  lemma SameMembers(t: seq<ZappedEvent>, s: seq<ZappedEvent>)
    requires multiset(s) == multiset(t)
    ensures forall x :: x in t ==> x in s
  {
    forall x | x in t ensures x in s {
      assert x in multiset(t);
    }
  }

  /** `GetRecentZaps(limit)`: `ORDER BY zapped_at DESC LIMIT ?`. SQLite reads
      a negative LIMIT as "no limit". Rows with equal `zapped_at` come out in
      insertion order (SQLite leaves their order unspecified). */
  function GetRecentZaps(t: Table, limit: int): (r: seq<ZappedEvent>)
    ensures |r| == if 0 <= limit < |t| then limit else |t|
    ensures SortedNewestFirst(r)
    ensures multiset(r) <= multiset(t)
    ensures forall x, y :: x in t && x !in r && y in r ==> x.zappedAt <= y.zappedAt
  {
    var sorted := SortNewestFirst(t);
    var k := if 0 <= limit < |t| then limit else |t|;
    PrefixIsNewest(sorted, k);
    SortedPrefix(sorted, k);
    SameMembers(t, sorted);
    sorted[..k]
  }
}
