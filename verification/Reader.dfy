/** The four prepared queries of the source database reader and the three reads built on them. */
module Reader {
  import opened Clock
  import opened Rows

  datatype Result<+T> = Ok(value: T) | Err

  function First(q: seq<Row>, limit: nat): seq<Row> {
    if limit <= |q| then q[..limit] else q
  }

  /** (m.time_updated, m.id) > (sinceMs, afterId), a row-value comparison. */
  predicate PastKey(r: Row, sinceMs: int, afterId: Id) {
    r.t > sinceMs || (r.t == sinceMs && IdLess(afterId, r.id))
  }

  /** (untilMs = 0 OR m.time_updated <= untilMs). */
  predicate WithinBound(r: Row, untilMs: int) {
    untilMs == 0 || r.t <= untilMs
  }

  function TimeQuery(table: Table, sinceMs: int, limit: nat): seq<Row> {
    First(Sorted(set r | r in table && r.t > sinceMs && r.tokens), limit)
  }

  function KeyQuery(table: Table, sinceMs: int, afterId: Id, limit: nat): seq<Row> {
    First(Sorted(set r | r in table && PastKey(r, sinceMs, afterId) && r.tokens), limit)
  }

  function WindowQuery(table: Table, sinceMs: int, untilMs: int, limit: nat): seq<Row> {
    First(Sorted(set r | r in table && r.t > sinceMs && WithinBound(r, untilMs) && r.tokens), limit)
  }

  function WindowKeyQuery(table: Table, sinceMs: int, afterId: Id, untilMs: int, limit: nat): seq<Row> {
    First(Sorted(set r | r in table && PastKey(r, sinceMs, afterId) && WithinBound(r, untilMs) && r.tokens), limit)
  }

  predicate Decodes(rows: seq<Row>) { forall r | r in rows :: r.parses }

  /** Scanning stops at the first row whose message data does not decode and returns no rows at all. */
  function Scanned(rows: seq<Row>): Result<seq<Row>> {
    if Decodes(rows) then Ok(rows) else Err
  }

  /** The shared row-scan loop. */
  method ScanRecords(rows: seq<Row>) returns (records: Result<seq<Row>>)
    ensures records == Scanned(rows)
  {
    var scanned := [];
    for i := 0 to |rows|
      invariant scanned == rows[..i]
      invariant forall r | r in scanned :: r.parses
    {
      if !rows[i].parses {
        assert rows[i] in rows;
        return Err;
      }
      scanned := scanned + [rows[i]];
    }
    assert rows[..|rows|] == rows;
    return Ok(scanned);
  }

  // A zero `until` is bound as 0, which the queries read as "no upper bound".
  function UntilMilli(until: Time): int {
    if IsZero(until) then 0 else UnixMilli(until)
  }

  function ReadRecords(table: Table, since: Time, limit: nat): Result<seq<Row>> {
    Scanned(TimeQuery(table, UnixMilli(since), limit))
  }

  function ReadRecordsAfter(table: Table, since: Time, afterId: Id, limit: nat): Result<seq<Row>> {
    Scanned(KeyQuery(table, UnixMilli(since), afterId, limit))
  }

  function ReadRecordsWindow(table: Table, since: Time, until: Time, afterId: Id, limit: nat): Result<seq<Row>> {
    if afterId != NO_ID then
      Scanned(WindowKeyQuery(table, UnixMilli(since), afterId, UntilMilli(until), limit))
    else
      Scanned(WindowQuery(table, UnixMilli(since), UntilMilli(until), limit))
  }

  // ------------------------------------------------------------------ what the reads select

  /** A bound that falls in the first millisecond of 1970 floors to 0 and so bounds nothing. */
  predicate BoundVanishes(until: Time) {
    !IsZero(until) && UnixMilli(until) == 0
  }

  /** The position a page starts after: an instant, and an id once a page has been returned. */
  predicate PastFrontier(r: Row, since: Time, afterId: Id) {
    if afterId != NO_ID then PastKey(r, UnixMilli(since), afterId) else r.t > UnixMilli(since)
  }

  /** Every row a windowed read may still return, whatever the page size. */
  function Pending(table: Table, since: Time, until: Time, afterId: Id): set<Row> {
    set r | r in table && r.tokens && PastFrontier(r, since, afterId) && WithinBound(r, UntilMilli(until))
  }

  /** One windowed page: the first `limit` pending rows in order. */
  lemma WindowPage(table: Table, since: Time, until: Time, afterId: Id, limit: nat)
    ensures ReadRecordsWindow(table, since, until, afterId, limit)
         == Scanned(First(Sorted(Pending(table, since, until, afterId)), limit))
  {
    if afterId != NO_ID {
      assert Pending(table, since, until, afterId)
          == set r | r in table && PastKey(r, UnixMilli(since), afterId) && WithinBound(r, UntilMilli(until))
              && r.tokens;
    } else {
      assert Pending(table, since, until, afterId)
          == set r | r in table && r.t > UnixMilli(since) && WithinBound(r, UntilMilli(until)) && r.tokens;
    }
  }

  /** Without an upper bound the windowed read is the plain read on the first page and the
      composite read on every later one. */
  lemma UnboundedWindowIsPlainRead(table: Table, since: Time, afterId: Id, limit: nat)
    ensures ReadRecordsWindow(table, since, ZERO_TIME, afterId, limit)
         == if afterId == NO_ID then ReadRecords(table, since, limit)
             else ReadRecordsAfter(table, since, afterId, limit)
  {
    var ms := UnixMilli(since);
    assert (set r | r in table && r.t > ms && WithinBound(r, 0) && r.tokens) == set r | r in table && r.t > ms
        && r.tokens;
    assert (set r | r in table && PastKey(r, ms, afterId) && WithinBound(r, 0) && r.tokens)
        == set r | r in table && PastKey(r, ms, afterId) && r.tokens;
  }

  /** In nanoseconds: a window selects exactly the rows strictly after `since` and at or before
      `until`, if and only if the bound does not vanish or no later row exists to betray it. */
  lemma WindowSelectsExactly(table: Table, since: Time, until: Time)
    ensures Pending(table, since, until, NO_ID)
         == (set r | r in table && r.tokens && r.OccurredAt() > since && (IsZero(until) || r.OccurredAt() <= until))
       <==> !(BoundVanishes(until)
              && exists r :: r in table && r.tokens && r.OccurredAt() > since && r.OccurredAt() > until)
  {
    var exact := set r | r in table && r.tokens && r.OccurredAt() > since && (IsZero(until) || r.OccurredAt() <= until);
    forall r: Row ensures (r.OccurredAt() > since <==> r.t > UnixMilli(since))
        && (r.OccurredAt() <= until <==> r.t <= UnixMilli(until)) {
      MilliBoundsAreExact(r.t, since);
      MilliBoundsAreExact(r.t, until);
    }
    if BoundVanishes(until) {
      if r :| r in table && r.tokens && r.OccurredAt() > since && r.OccurredAt() > until {
        assert r in Pending(table, since, until, NO_ID) && r !in exact;
      }
    } else {
      assert Pending(table, since, until, NO_ID) == exact;
    }
  }

  /** A replay of the full history until 1970-01-01T00:00:00Z returns a row stamped 5 ms later than its bound. */
  lemma VanishingBoundReturnsLaterRow()
    ensures var r, until := Row([97], 5, true, true), FromMilli(0);
            BoundVanishes(until) && r.OccurredAt() > until
            && ReadRecordsWindow({r}, ZERO_TIME, until, NO_ID, 1) == Ok([r])
  {
    var r := Row([97], 5, true, true);
    assert Pending({r}, ZERO_TIME, FromMilli(0), NO_ID) == {r};
    WindowPage({r}, ZERO_TIME, FromMilli(0), NO_ID, 1);
    SortedFacts({r});
    OrderedIsUnique(Sorted({r}), [r]);
  }

  lemma OrderedSlice(q: seq<Row>, lo: nat, hi: nat)
    requires Ordered(q) && lo <= hi <= |q|
    ensures Ordered(q[lo..hi])
  {
  }

  /** Rows of an ordered listing up to and past position `k`. */
  lemma OrderedSplit(q: seq<Row>, k: nat)
    requires Ordered(q) && 0 < k <= |q|
    ensures forall r | r in q :: r in q[..k] <==> r == q[k - 1] || Before(r, q[k - 1])
    ensures forall r | r in q :: r in q[k..] <==> Before(q[k - 1], r)
  {
    forall r | r in q
      ensures r in q[..k] <==> r == q[k - 1] || Before(r, q[k - 1])
      ensures r in q[k..] <==> Before(q[k - 1], r)
    {
      var i :| 0 <= i < |q| && q[i] == r;
      BeforeIsStrictTotal(r, q[k - 1]);
      if i < k { assert q[..k][i] == r; }
      if i >= k { assert q[k..][i - k] == r; }
      if r in q[k..] { var j :| 0 <= j < |q| - k && q[k..][j] == r; assert q[k + j] == r; }
      if r in q[..k] { var j :| 0 <= j < k && q[..k][j] == r; assert q[j] == r; }
    }
  }

  /** Nothing a continuation returns was returned before, and nothing is out of the window. */
  lemma ContinuationIsLater(table: Table, since: Time, until: Time, afterId: Id, q: seq<Row>, k: nat)
    requires q == Sorted(Pending(table, since, until, afterId)) && 0 < k <= |q|
    ensures forall r | r in Pending(table, q[k - 1].OccurredAt(), until, q[k - 1].id) :: r in q[k..]
  {
    var last := q[k - 1];
    SortedFacts(Pending(table, since, until, afterId));
    OrderedSplit(q, k);
    assert last in q;
    MilliBoundsAreExact(last.t, since);
    forall r | r in Pending(table, last.OccurredAt(), until, last.id) ensures r in q[k..] {
      assert Before(last, r);
      PastFrontierTransitive(last, r, since, afterId);
      assert r in q;
    }
  }

  predicate TieSafe(q: seq<Row>, k: nat)
    requires 0 < k <= |q|
  {
    q[k - 1].id != NO_ID || forall r | r in q[k..] :: r.t > q[k - 1].t
  }

  lemma LaterIsContinued(table: Table, since: Time, until: Time, afterId: Id, q: seq<Row>, k: nat)
    requires q == Sorted(Pending(table, since, until, afterId)) && 0 < k <= |q| && TieSafe(q, k)
    ensures forall r | r in q[k..] :: r in Pending(table, q[k - 1].OccurredAt(), until, q[k - 1].id)
  {
    var last := q[k - 1];
    SortedFacts(Pending(table, since, until, afterId));
    OrderedSplit(q, k);
    MilliBoundsAreExact(last.t, since);
    forall r | r in q[k..] ensures r in Pending(table, last.OccurredAt(), until, last.id) {
      assert r in q;
      assert Before(last, r);
    }
  }

  /** Continuing from a row that has an id, or shares its timestamp with no later row, yields exactly the
      rest of the listing. */
  lemma PagingResumes(table: Table, since: Time, until: Time, afterId: Id, q: seq<Row>, k: nat)
    requires q == Sorted(Pending(table, since, until, afterId)) && 0 < k <= |q| && TieSafe(q, k)
    ensures Sorted(Pending(table, q[k - 1].OccurredAt(), until, q[k - 1].id)) == q[k..]
  {
    var last := q[k - 1];
    SortedFacts(Pending(table, since, until, afterId));
    SortedFacts(Pending(table, last.OccurredAt(), until, last.id));
    LaterIsContinued(table, since, until, afterId, q, k);
    ContinuationIsLater(table, since, until, afterId, q, k);
    OrderedIsUnique(Sorted(Pending(table, last.OccurredAt(), until, last.id)), q[k..]);
  }

  /** It does so in no other case: an empty id reads as "first page" and skips the tied rows that follow. */
  lemma PagingResumesExactly(table: Table, since: Time, until: Time, afterId: Id, q: seq<Row>, k: nat)
    requires q == Sorted(Pending(table, since, until, afterId)) && 0 < k <= |q|
    ensures Sorted(Pending(table, q[k - 1].OccurredAt(), until, q[k - 1].id)) == q[k..] <==> TieSafe(q, k)
  {
    var last := q[k - 1];
    if TieSafe(q, k) {
      PagingResumes(table, since, until, afterId, q, k);
    } else {
      var r :| r in q[k..] && r.t <= last.t;
      MilliBoundsAreExact(last.t, since);
      SortedFacts(Pending(table, last.OccurredAt(), until, last.id));
      assert r !in Sorted(Pending(table, last.OccurredAt(), until, last.id));
    }
  }

  lemma PastFrontierTransitive(a: Row, b: Row, since: Time, afterId: Id)
    requires PastFrontier(a, since, afterId) && Before(a, b)
    ensures PastFrontier(b, since, afterId)
  {
    if afterId != NO_ID && a.t == b.t == UnixMilli(since) {
      IdTransitive(afterId, a.id, b.id);
    }
  }

  /** A bound only shortens the listing: the bounded page is the page of a prefix of the unbounded listing. */
  lemma BoundedIsPrefix(table: Table, since: Time, until: Time, afterId: Id)
    ensures Sorted(Pending(table, since, until, afterId)) <= Sorted(Pending(table, since, ZERO_TIME, afterId))
  {
    var all := Sorted(Pending(table, since, ZERO_TIME, afterId));
    var some := Sorted(Pending(table, since, until, afterId));
    SortedFacts(Pending(table, since, ZERO_TIME, afterId));
    SortedFacts(Pending(table, since, until, afterId));
    var k := CountWithin(all, UntilMilli(until));
    OrderedSlice(all, 0, k);
    forall r ensures r in some <==> r in all[..k] {
      if r in some {
        assert r in all;
        var i :| 0 <= i < |all| && all[i] == r;
        assert all[..k][i] == r;
      }
      if r in all[..k] {
        var i :| 0 <= i < k && all[i] == r;
        assert r in all;
      }
    }
    OrderedIsUnique(some, all[..k]);
  }

  lemma CountWithin(q: seq<Row>, untilMs: int) returns (k: nat)
    requires Ordered(q)
    ensures k <= |q|
    ensures forall i | 0 <= i < |q| :: WithinBound(q[i], untilMs) <==> i < k
  {
    k := 0;
    while k < |q| && WithinBound(q[k], untilMs)
      invariant k <= |q|
      invariant forall i | 0 <= i < k :: WithinBound(q[i], untilMs)
    {
      k := k + 1;
    }
    forall i | k <= i < |q| ensures !WithinBound(q[i], untilMs) {
      assert i == k || Before(q[k], q[i]);
    }
  }

  /** With an empty afterId and a positive page size, the composite query lists what the plain one does exactly when no
      usage row with an id is stamped at `since`. */
  lemma EmptyAfterIdQueries(table: Table, since: Time, limit: nat)
    requires limit > 0
    ensures KeyQuery(table, UnixMilli(since), NO_ID, limit) == TimeQuery(table, UnixMilli(since), limit)
       <==> !exists r :: r in table && r.tokens && r.t == UnixMilli(since) && r.id != NO_ID
  {
    var ms := UnixMilli(since);
    var byKey := set r | r in table && PastKey(r, ms, NO_ID) && r.tokens;
    var byTime := set r | r in table && r.t > ms && r.tokens;
    SortedFacts(byKey);
    SortedFacts(byTime);
    if r :| r in table && r.tokens && r.t == ms && r.id != NO_ID {
      assert r in byKey;
      var q := Sorted(byKey);
      assert r in q;
      assert q[0].t == ms by {
        var i :| 0 <= i < |q| && q[i] == r;
        assert i == 0 || Before(q[0], q[i]);
        assert q[0] in byKey;
      }
      assert q[0] in First(q, limit);
      assert q[0] !in Sorted(byTime);
    } else {
      assert byKey == byTime;
    }
  }

  /** The interface promises that an empty afterId makes the composite read equal to the plain one. For any positive
      page size it does exactly when no usage row with an id is stamped at `since`, or a row that does not decode
      makes both reads fail. */
  lemma EmptyAfterIdEquivalence(table: Table, since: Time, limit: nat)
    requires limit > 0
    ensures ReadRecordsAfter(table, since, NO_ID, limit) == ReadRecords(table, since, limit)
       <==> (!exists r :: r in table && r.tokens && r.t == UnixMilli(since) && r.id != NO_ID)
            || ((exists r :: r in KeyQuery(table, UnixMilli(since), NO_ID, limit) && !r.parses)
                && exists r :: r in TimeQuery(table, UnixMilli(since), limit) && !r.parses)
  {
    EmptyAfterIdQueries(table, since, limit);
  }

  /** Where every usage row decodes, only the first case is left. */
  lemma EmptyAfterIdWhenRowsDecode(table: Table, since: Time, limit: nat)
    requires limit > 0 && forall r | r in table && r.tokens :: r.parses
    ensures ReadRecordsAfter(table, since, NO_ID, limit) == ReadRecords(table, since, limit)
       <==> !exists r :: r in table && r.tokens && r.t == UnixMilli(since) && r.id != NO_ID
  {
    SortedFacts(set r | r in table && PastKey(r, UnixMilli(since), NO_ID) && r.tokens);
    EmptyAfterIdEquivalence(table, since, limit);
  }

  /** A concrete table on which the promised equivalence fails: the composite read returns the row at `since`. */
  lemma EmptyAfterIdIncludesSince()
    ensures var r := Row([97], 5, true, true);
            ReadRecordsAfter({r}, FromMilli(5), NO_ID, 1) == Ok([r]) && ReadRecords({r}, FromMilli(5), 1) == Ok([])
  {
    var r := Row([97], 5, true, true);
    assert (set x | x in {r} && PastKey(x, 5, NO_ID) && x.tokens) == {r};
    assert (set x | x in {r} && x.t > 5 && x.tokens) == {};
    SortedFacts({r});
    OrderedIsUnique(Sorted({r}), [r]);
  }
}
