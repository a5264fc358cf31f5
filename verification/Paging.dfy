/** What a replay pass sends: in order and without repetition whatever happens to the table between pages,
    everything that stays put, and on a quiet table exactly the window, however it is cut into batches. */
module Paging {
  import opened Clock
  import opened Rows
  import opened Reader
  import opened State
  import opened Protocol

  /** Every usage row has an id, so that no position reads as "first page". */
  predicate HasIds(table: Table) {
    forall r | r in table && r.tokens :: r.id != NO_ID
  }

  function Remaining(s: Settings, since: Time, afterId: Id, table: Table): seq<Row> {
    Sorted(Pending(table, since, s.until, afterId))
  }

  /** How a pass ends on a page that lists all that remains. */
  function ShortEnd(q: seq<Row>, since: Time): End {
    if q == [] then DrainedEmpty(since) else DrainedShort(Last(q).OccurredAt())
  }

  /** What a turn of a replay pass acknowledges: the first rows of what remains. */
  lemma TurnSendsFirst(s: Settings, since: Time, afterId: Id, page: Page)
    ensures var turn := TakeTurn(s, true, since, afterId, page);
            var q := Remaining(s, since, afterId, page.table);
            && (turn.ack.Some? ==> turn.ack.value == First(q, s.limit) && forall r | r in turn.ack.value :: r.parses)
            && (turn.end.None? ==> |q| >= s.limit)
            && (turn.end.Some? && turn.end.value.Drained() ==>
                  Listed(turn.ack) == (if q == [] then [] else [q]) && |q| < s.limit
                  && turn.end.value.frontier == (if q == [] then since else Last(q).OccurredAt()))
            && (page.readOk && page.sendOk && (forall r | r in First(q, s.limit) :: r.parses) ==>
                  && (turn.end.None? <==> |q| >= s.limit)
                  && (turn.end.Some? ==> turn.end.value == ShortEnd(q, since)))
  {
    WindowPage(page.table, since, s.until, afterId, s.limit);
    SortedFacts(Pending(page.table, since, s.until, afterId));
  }

  lemma LoopGoesOn(s: Settings, replaying: bool, since: Time, afterId: Id, pages: seq<Page>, rows: seq<Row>)
    requires pages != [] && rows != [] && TakeTurn(s, replaying, since, afterId, pages[0]) == Turn(Some(rows), None)
    ensures var rest := Loop(s, replaying, Last(rows).OccurredAt(), Last(rows).id, pages[1..]);
            var whole := Loop(s, replaying, since, afterId, pages);
            whole.acks == [rows] + rest.acks && whole.end == rest.end && whole.pages == 1 + rest.pages
            && Concat(whole.acks) == rows + Concat(rest.acks)
  {
    var rest := Loop(s, replaying, Last(rows).OccurredAt(), Last(rows).id, pages[1..]);
    assert ([rows] + rest.acks)[1..] == rest.acks;
  }

  lemma LoopStops(s: Settings, replaying: bool, since: Time, afterId: Id, pages: seq<Page>)
    requires pages != [] && TakeTurn(s, replaying, since, afterId, pages[0]).end.Some?
    ensures var turn := TakeTurn(s, replaying, since, afterId, pages[0]);
            var whole := Loop(s, replaying, since, afterId, pages);
            whole.end == turn.end.value && whole.pages == 1 && whole.acks == Listed(turn.ack)
            && Concat(whole.acks) == if turn.ack.Some? then turn.ack.value else []
  {
    var turn := TakeTurn(s, replaying, since, afterId, pages[0]);
    if turn.ack.Some? {
      assert Concat([turn.ack.value]) == turn.ack.value + Concat([]);
    }
  }

  lemma FrontierIsLater(last: Row, r: Row)
    requires PastFrontier(r, last.OccurredAt(), last.id)
    ensures Before(last, r)
  {
    MilliBoundsAreExact(last.t, 0);
  }

  lemma OrderedJoin(a: seq<Row>, b: seq<Row>)
    requires Ordered(a) && Ordered(b) && a != []
    requires forall r | r in b :: Before(Last(a), r)
    ensures Ordered(a + b)
  {
    forall i, j | 0 <= i < j < |a + b| ensures Before((a + b)[i], (a + b)[j]) {
      if i < |a| <= j {
        assert b[j - |a|] in b;
        if i < |a| - 1 { BeforeTransitive(a[i], Last(a), b[j - |a|]); }
      }
    }
  }

  lemma FirstIsOrdered(q: seq<Row>, limit: nat)
    requires Ordered(q)
    ensures Ordered(First(q, limit))
    ensures forall r | r in First(q, limit) :: r in q
  {
  }

  ghost predicate SeenIn(r: Row, pages: seq<Page>, count: nat) {
    exists k :: 0 <= k < count <= |pages| && r in pages[k].table
  }

  /** While the table changes arbitrarily between pages, the rows sent in a pass are strictly increasing in
      (time_updated, id), lie in the window, and come from a table that was read. */
  lemma {:induction false} SentInOrder(s: Settings, since: Time, afterId: Id, pages: seq<Page>)
    ensures var pass := Loop(s, true, since, afterId, pages);
            && Ordered(Concat(pass.acks))
            && forall r | r in Concat(pass.acks) ::
                 PastFrontier(r, since, afterId) && WithinBound(r, UntilMilli(s.until)) && r.tokens && r.parses
                     && SeenIn(r, pages, pass.pages)
    decreases |pages|
  {
    if pages != [] {
      var turn := TakeTurn(s, true, since, afterId, pages[0]);
      TurnSendsFirst(s, since, afterId, pages[0]);
      var q := Remaining(s, since, afterId, pages[0].table);
      SortedFacts(Pending(pages[0].table, since, s.until, afterId));
      FirstIsOrdered(q, s.limit);
      if turn.end.None? {
        var rows, last := turn.ack.value, Last(turn.ack.value);
        var rest := Loop(s, true, last.OccurredAt(), last.id, pages[1..]);
        LoopGoesOn(s, true, since, afterId, pages, rows);
        SentInOrder(s, last.OccurredAt(), last.id, pages[1..]);
        assert last in rows;
        forall r | r in Concat(rest.acks)
          ensures Before(last, r) && PastFrontier(r, since, afterId) && SeenIn(r, pages, 1 + rest.pages)
        {
          FrontierIsLater(last, r);
          PastFrontierTransitive(last, r, since, afterId);
          var k :| 0 <= k < rest.pages <= |pages[1..]| && r in pages[1..][k].table;
          assert pages[k + 1] == pages[1..][k];
        }
        OrderedJoin(rows, Concat(rest.acks));
        assert forall r | r in rows :: r in pages[0].table;
      } else {
        LoopStops(s, true, since, afterId, pages);
        if turn.ack.Some? {
          assert forall r | r in turn.ack.value :: r in pages[0].table;
        }
      }
    }
  }

  /** A row that a full page could return and its continuation cannot is on the page. */
  lemma RowOfFullPage(s: Settings, since: Time, afterId: Id, page: Page, r: Row)
    requires TakeTurn(s, true, since, afterId, page).end.None? && HasIds(page.table)
    requires r in Pending(page.table, since, s.until, afterId)
    requires var last := Last(TakeTurn(s, true, since, afterId, page).ack.value);
             !PastFrontier(r, last.OccurredAt(), last.id)
    ensures r in TakeTurn(s, true, since, afterId, page).ack.value
  {
    var q := Remaining(s, since, afterId, page.table);
    TurnSendsFirst(s, since, afterId, page);
    SortedFacts(Pending(page.table, since, s.until, afterId));
    var last := q[s.limit - 1];
    assert last in q && r in q;
    MilliBoundsAreExact(last.t, 0);
    OrderedSplit(q, s.limit);
    BeforeIsStrictTotal(last, r);
  }

  /** A row that stays in the window, unchanged, through every page of a completed pass is sent. */
  lemma {:induction false} StableRowIsSent(s: Settings, since: Time, afterId: Id, pages: seq<Page>, r: Row)
    requires Loop(s, true, since, afterId, pages).end.Drained()
    requires r.tokens && PastFrontier(r, since, afterId) && WithinBound(r, UntilMilli(s.until))
    requires forall k | 0 <= k < Loop(s, true, since, afterId, pages).pages ::
               r in pages[k].table && HasIds(pages[k].table)
    ensures r in Concat(Loop(s, true, since, afterId, pages).acks)
    decreases |pages|
  {
    var turn := TakeTurn(s, true, since, afterId, pages[0]);
    assert r in pages[0].table;
    if turn.end.None? {
      var rows, last := turn.ack.value, Last(turn.ack.value);
      var rest := Loop(s, true, last.OccurredAt(), last.id, pages[1..]);
      LoopGoesOn(s, true, since, afterId, pages, rows);
      if PastFrontier(r, last.OccurredAt(), last.id) {
        forall k | 0 <= k < rest.pages ensures r in pages[1..][k].table && HasIds(pages[1..][k].table) {
          assert pages[1..][k] == pages[k + 1];
        }
        StableRowIsSent(s, last.OccurredAt(), last.id, pages[1..], r);
      } else {
        RowOfFullPage(s, since, afterId, pages[0], r);
      }
    } else {
      LoopStops(s, true, since, afterId, pages);
      TurnSendsFirst(s, since, afterId, pages[0]);
      SortedFacts(Pending(pages[0].table, since, s.until, afterId));
    }
  }

  /** Under any interference no key goes out twice in a pass. */
  lemma NoKeySentTwice(s: Settings, pages: seq<Page>, i: nat, j: nat)
    requires i < j < |Concat(Loop(s, true, s.since, NO_ID, pages).acks)|
    ensures var sent := Concat(Loop(s, true, s.since, NO_ID, pages).acks);
            (sent[i].t, sent[i].id) != (sent[j].t, sent[j].id)
  {
    var sent := Concat(Loop(s, true, s.since, NO_ID, pages).acks);
    SentInOrder(s, s.since, NO_ID, pages);
    IdIrreflexive(sent[i].id);
    assert Before(sent[i], sent[j]);
  }

  /** A row of the window that stays put through every page of a completed pass goes out exactly once. */
  lemma StableRowIsSentOnce(s: Settings, pages: seq<Page>, r: Row)
    requires Loop(s, true, s.since, NO_ID, pages).end.Drained()
    requires r.tokens && r.t > UnixMilli(s.since) && WithinBound(r, UntilMilli(s.until))
    requires forall k | 0 <= k < Loop(s, true, s.since, NO_ID, pages).pages ::
               r in pages[k].table && HasIds(pages[k].table)
    ensures multiset(Concat(Loop(s, true, s.since, NO_ID, pages).acks))[r] == 1
  {
    SentInOrder(s, s.since, NO_ID, pages);
    StableRowIsSent(s, s.since, NO_ID, pages, r);
    OrderedCountsOnce(Concat(Loop(s, true, s.since, NO_ID, pages).acks), r);
  }

  lemma IdIrreflexive(a: Id)
    ensures !IdLess(a, a)
  {
    if IdLess(a, a) { IdAsymmetric(a, a); }
  }

  /** The frontier of a completed pass is the last row it sent, or the replay start. */
  lemma {:induction false} FrontierIsLastSent(s: Settings, since: Time, afterId: Id, pages: seq<Page>)
    requires Loop(s, true, since, afterId, pages).end.Drained()
    ensures var pass := Loop(s, true, since, afterId, pages);
            pass.end.frontier == if Concat(pass.acks) == [] then since else Last(Concat(pass.acks)).OccurredAt()
    decreases |pages|
  {
    var turn := TakeTurn(s, true, since, afterId, pages[0]);
    TurnSendsFirst(s, since, afterId, pages[0]);
    if turn.end.None? {
      var rows, last := turn.ack.value, Last(turn.ack.value);
      LoopGoesOn(s, true, since, afterId, pages, rows);
      var rest := Loop(s, true, last.OccurredAt(), last.id, pages[1..]);
      FrontierIsLastSent(s, last.OccurredAt(), last.id, pages[1..]);
      if Concat(rest.acks) != [] {
        assert Last(rows + Concat(rest.acks)) == Last(Concat(rest.acks));
      }
    } else {
      LoopStops(s, true, since, afterId, pages);
    }
  }

  // ------------------------------------------------------------------ a quiet table

  /** Every page sees the same table and nothing fails. */
  predicate Quiet(pages: seq<Page>, table: Table) {
    forall p | p in pages :: p.table == table && p.readOk && p.sendOk
  }

  function FullPages(n: nat, limit: PageLimit): nat {
    if n < limit then 0 else 1 + FullPages(n - limit, limit)
  }

  function LastPage(n: nat, limit: PageLimit): nat {
    if n < limit then n else LastPage(n - limit, limit)
  }

  lemma {:induction false} PageCounts(n: nat, limit: PageLimit)
    ensures n == FullPages(n, limit) * limit + LastPage(n, limit) && LastPage(n, limit) < limit
    ensures FullPages(n, limit) == n / limit && LastPage(n, limit) == n % limit
  {
    if n >= limit {
      PageCounts(n - limit, limit);
      assert FullPages(n, limit) * limit == FullPages(n - limit, limit) * limit + limit;
    }
    QuotientIs(n, limit, FullPages(n, limit), LastPage(n, limit));
  }

  lemma {:induction false} ProductGap(a: int, b: int, d: int)
    requires d > 0
    ensures a < b ==> a * d + d <= b * d
    decreases b - a
  {
    if a + 1 < b { ProductGap(a, b - 1, d); }
    assert b * d == (b - 1) * d + d;
  }

  lemma QuotientIs(n: int, d: int, k: int, m: int)
    requires d > 0 && n == k * d + m && 0 <= m < d
    ensures n / d == k && n % d == m
  {
    assert n == (n / d) * d + n % d;
    ProductGap(k, n / d, d);
    ProductGap(n / d, k, d);
  }

  /** A pass that delivered the listing `q` from `since` on, page by page, and nothing else. */
  predicate DeliversListing(pass: Pass, q: seq<Row>, since: Time, limit: PageLimit) {
    var n, m := FullPages(|q|, limit), LastPage(|q|, limit);
    var frontier := if q == [] then since else Last(q).OccurredAt();
    && Concat(pass.acks) == q
    && |pass.acks| == n + (if m == 0 then 0 else 1)
    && pass.pages == n + 1
    && pass.end == if m == 0 then DrainedEmpty(frontier) else DrainedShort(frontier)
  }

  lemma QuietTail(pages: seq<Page>, table: Table)
    requires Quiet(pages, table) && pages != []
    ensures Quiet(pages[1..], table) && Quiet([pages[0]], table)
  {
    forall p | p in pages[1..] ensures p in pages { }
  }

  lemma QuietTurn(s: Settings, since: Time, afterId: Id, table: Table, page: Page)
    requires page.table == table && page.readOk && page.sendOk && HasIds(table)
    requires Decodes(First(Remaining(s, since, afterId, table), s.limit))
    ensures var turn := TakeTurn(s, true, since, afterId, page);
            var q := Remaining(s, since, afterId, table);
            if |q| < s.limit then turn == Turn(if q == [] then None else Some(q), Some(ShortEnd(q, since)))
            else turn == Turn(Some(q[..s.limit]), None)
                 && Remaining(s, q[s.limit - 1].OccurredAt(), q[s.limit - 1].id, table) == q[s.limit..]
  {
    var q := Remaining(s, since, afterId, table);
    TurnSendsFirst(s, since, afterId, page);
    SortedFacts(Pending(table, since, s.until, afterId));
    if |q| >= s.limit {
      assert q[s.limit - 1] in q;
      PagingResumes(table, since, s.until, afterId, q, s.limit);
    }
  }

  /** `whole` delivered the batch `rows` and then what `rest` did, and ended like it. */
  predicate Precedes(rows: seq<Row>, rest: Pass, whole: Pass) {
    && whole.acks == [rows] + rest.acks && whole.end == rest.end && whole.pages == 1 + rest.pages
    && Concat(whole.acks) == rows + Concat(rest.acks)
  }

  /** A full page that works: what remains is the rest of the listing, from its last row on. */
  lemma FirstFullPage(s: Settings, since: Time, afterId: Id, table: Table, pages: seq<Page>, q: seq<Row>)
      returns (last: Row)
    requires pages != [] && Quiet([pages[0]], table) && HasIds(table)
    requires q == Remaining(s, since, afterId, table) && s.limit <= |q| && Decodes(First(q, s.limit))
    ensures last == q[s.limit - 1] && q[s.limit..] == Remaining(s, last.OccurredAt(), last.id, table)
    ensures Precedes(q[..s.limit], Loop(s, true, last.OccurredAt(), last.id, pages[1..]),
                Loop(s, true, since, afterId, pages))
  {
    var rows := q[..s.limit];
    last := Last(rows);
    assert last == q[s.limit - 1];
    assert pages[0] in [pages[0]];
    QuietTurn(s, since, afterId, table, pages[0]);
    LoopGoesOn(s, true, since, afterId, pages, rows);
  }

  lemma FullPageFirst(q: seq<Row>, since: Time, limit: PageLimit, rest: Pass, whole: Pass)
    requires |q| >= limit && DeliversListing(rest, q[limit..], q[limit - 1].OccurredAt(), limit)
    requires Precedes(q[..limit], rest, whole)
    ensures DeliversListing(whole, q, since, limit)
  {
    assert q == q[..limit] + q[limit..];
  }

  lemma ShortPass(s: Settings, since: Time, afterId: Id, table: Table, pages: seq<Page>, q: seq<Row>)
    requires pages != [] && Quiet([pages[0]], table) && HasIds(table)
    requires q == Remaining(s, since, afterId, table) && |q| < s.limit && Decodes(q)
    ensures DeliversListing(Loop(s, true, since, afterId, pages), q, since, s.limit)
  {
    assert pages[0] in [pages[0]];
    QuietTurn(s, since, afterId, table, pages[0]);
    LoopStops(s, true, since, afterId, pages);
    ShortListing(q, since, s.limit, Loop(s, true, since, afterId, pages));
  }

  lemma ShortListing(q: seq<Row>, since: Time, limit: PageLimit, whole: Pass)
    requires |q| < limit && whole.end == ShortEnd(q, since) && whole.pages == 1
    requires whole.acks == (if q == [] then [] else [q]) && Concat(whole.acks) == q
    ensures DeliversListing(whole, q, since, limit)
  {
  }

  /** On a quiet table, for every page size, a pass with pages enough to read ends and delivers its window. */
  lemma {:induction false} QuietReplay(s: Settings, since: Time, afterId: Id, table: Table, pages: seq<Page>)
    requires Quiet(pages, table) && HasIds(table) && Decodes(Remaining(s, since, afterId, table))
    requires |pages| > FullPages(|Remaining(s, since, afterId, table)|, s.limit)
    ensures DeliversListing(Loop(s, true, since, afterId, pages), Remaining(s, since, afterId, table), since, s.limit)
    decreases |pages|
  {
    var q := Remaining(s, since, afterId, table);
    DecodesInParts(q, s.limit);
    QuietTail(pages, table);
    if |q| < s.limit {
      ShortPass(s, since, afterId, table, pages, q);
    } else {
      var last := FirstFullPage(s, since, afterId, table, pages, q);
      QuietReplay(s, last.OccurredAt(), last.id, table, pages[1..]);
      FullPageFirst(q, since, s.limit, Loop(s, true, last.OccurredAt(), last.id, pages[1..]),
          Loop(s, true, since, afterId, pages));
    }
  }

  lemma DecodesInParts(q: seq<Row>, k: nat)
    requires Decodes(q)
    ensures Decodes(First(q, k)) && (k <= |q| ==> Decodes(q[k..]))
  {
  }

  // ------------------------------------------------------------------ a pass that breaks off

  /** The first `k` pages see a table, work, and are full: they hold its first `m` remaining rows. */
  predicate FullPagesWork(pages: seq<Page>, k: nat, table: Table, q: seq<Row>, m: nat, limit: PageLimit) {
    && k <= |pages| && Quiet(pages[..k], table) && HasIds(table)
    && m == k * limit && m <= |q| && Decodes(q[..m])
  }

  lemma FullPagesStep(pages: seq<Page>, k: nat, table: Table, q: seq<Row>, m: nat, limit: PageLimit)
    requires k > 0 && FullPagesWork(pages, k, table, q, m, limit)
    ensures limit <= m && Quiet([pages[0]], table) && Decodes(First(q, limit))
    ensures FullPagesWork(pages[1..], k - 1, table, q[limit..], m - limit, limit)
    ensures k < |pages| ==> pages[1..][k - 1] == pages[k]
  {
    assert k * limit == (k - 1) * limit + limit;
    ProductGap(0, k, limit);
    assert First(q, limit) == q[..m][..limit];
    assert q[limit..][..m - limit] == q[..m][limit..];
    assert pages[..k][0] == pages[0];
    forall p | p in pages[1..][..k - 1] ensures p in pages[..k] {
      var i :| 0 <= i < k - 1 && pages[1..][..k - 1][i] == p;
      assert pages[..k][i + 1] == p;
    }
  }

  function PageAt(pages: seq<Page>, k: nat): Option<Page> { if k < |pages| then Some(pages[k]) else None }

  /** A pass that delivered the first `m` rows of a listing and then broke off: it died before the next page; or that
      page was not read, or holds a row that does not decode; or else, with rows to send, its send failed. */
  predicate BreaksOff(sent: seq<Row>, end: End, next: Option<Page>, q: seq<Row>, m: nat, limit: PageLimit)
    requires m <= |q|
  {
    var rest := q[m..];
    var unread := next.Some? && (!next.value.readOk || !Decodes(First(rest, limit)));
    var unsent := next.Some? && !unread && rest != [] && !next.value.sendOk;
    && (next.None? ==> end == Died) && (unread ==> end == ReadFailed) && (unsent ==> end == SendFailed)
    && (next.None? || unread || unsent ==> sent == q[..m])
  }

  lemma FirstPageBreaksOff(s: Settings, since: Time, afterId: Id, table: Table, pages: seq<Page>, q: seq<Row>)
    requires q == Remaining(s, since, afterId, table) && (pages != [] ==> pages[0].table == table)
    ensures var pass := Loop(s, true, since, afterId, pages);
            BreaksOff(Concat(pass.acks), pass.end, PageAt(pages, 0), q, 0, s.limit)
  {
    assert q[0..] == q;
    if pages != [] {
      TurnBreaksOff(s, since, afterId, pages[0], q);
      if TakeTurn(s, true, since, afterId, pages[0]).end.Some? { LoopStops(s, true, since, afterId, pages); }
    }
  }

  lemma TurnBreaksOff(s: Settings, since: Time, afterId: Id, page: Page, q: seq<Row>)
    requires q == Remaining(s, since, afterId, page.table)
    ensures var turn := TakeTurn(s, true, since, afterId, page);
            && (!page.readOk || !Decodes(First(q, s.limit)) ==> turn == Turn(None, Some(ReadFailed)))
            && (page.readOk && Decodes(First(q, s.limit)) && q != [] && !page.sendOk ==>
                  turn == Turn(None, Some(SendFailed)))
  {
    WindowPage(page.table, since, s.until, afterId, s.limit);
  }

  lemma BreaksOffLater(sent: seq<Row>, end: End, next: Option<Page>, q: seq<Row>, m: nat, limit: PageLimit)
    requires limit <= m <= |q| && BreaksOff(sent, end, next, q[limit..], m - limit, limit)
    ensures BreaksOff(q[..limit] + sent, end, next, q, m, limit)
  {
    assert q[limit..][m - limit..] == q[m..];
    assert q[..limit] + q[limit..][..m - limit] == q[..m];
  }

  /** The first of several full pages that work. */
  lemma FirstOfFullPages(s: Settings, since: Time, afterId: Id, table: Table, pages: seq<Page>, k: nat, q: seq<Row>,
      m: nat) returns (last: Row, later: seq<Row>)
    requires k > 0 && q == Remaining(s, since, afterId, table) && FullPagesWork(pages, k, table, q, m, s.limit)
    ensures s.limit <= m && later == q[s.limit..] == Remaining(s, last.OccurredAt(), last.id, table)
    ensures FullPagesWork(pages[1..], k - 1, table, later, m - s.limit, s.limit)
    ensures PageAt(pages[1..], k - 1) == PageAt(pages, k)
    ensures Precedes(q[..s.limit], Loop(s, true, last.OccurredAt(), last.id, pages[1..]),
                Loop(s, true, since, afterId, pages))
  {
    FullPagesStep(pages, k, table, q, m, s.limit);
    last := FirstFullPage(s, since, afterId, table, pages, q);
    later := q[s.limit..];
  }

  /** A replay pass over a quiet table whose first `k` pages are full and work, and whose next page does not. */
  lemma {:induction false} PassBreaksOff(s: Settings, since: Time, afterId: Id, table: Table, pages: seq<Page>, k: nat,
      q: seq<Row>, m: nat)
    requires q == Remaining(s, since, afterId, table) && FullPagesWork(pages, k, table, q, m, s.limit)
    requires k < |pages| ==> pages[k].table == table
    ensures var pass := Loop(s, true, since, afterId, pages);
            BreaksOff(Concat(pass.acks), pass.end, PageAt(pages, k), q, m, s.limit)
    decreases k
  {
    if k == 0 {
      FirstPageBreaksOff(s, since, afterId, table, pages, q);
    } else {
      var last, later := FirstOfFullPages(s, since, afterId, table, pages, k, q, m);
      PassBreaksOff(s, last.OccurredAt(), last.id, table, pages[1..], k - 1, later, m - s.limit);
      var rest := Loop(s, true, last.OccurredAt(), last.id, pages[1..]);
      BreaksOffLater(Concat(rest.acks), rest.end, PageAt(pages, k), q, m, s.limit);
    }
  }

  function Window(s: Settings, table: Table): seq<Row> { Remaining(s, s.since, NO_ID, table) }

  /** Where a pass over a quiet table ends: the last row of the window, or the replay start. */
  function WindowEnd(s: Settings, table: Table): Time {
    if Window(s, table) == [] then s.since else Last(Window(s, table)).OccurredAt()
  }

  /** A completed replay pass every page of which saw the same table. */
  predicate CompletesOver(s: Settings, pages: seq<Page>, table: Table) {
    var pass := Loop(s, true, s.since, NO_ID, pages);
    pass.end.Drained() && forall k | 0 <= k < pass.pages :: pages[k].table == table
  }

  /** However a pass over an unchanging table came to complete, it delivered the window, in order. */
  lemma CompletedPass(s: Settings, table: Table, pages: seq<Page>)
    requires HasIds(table) && CompletesOver(s, pages, table)
    ensures var pass := Loop(s, true, s.since, NO_ID, pages);
            Concat(pass.acks) == Window(s, table) && pass.end.frontier == WindowEnd(s, table)
  {
    var pass := Loop(s, true, s.since, NO_ID, pages);
    var sent := Concat(pass.acks);
    SentInOrder(s, s.since, NO_ID, pages);
    SortedFacts(Pending(table, s.since, s.until, NO_ID));
    forall r ensures r in sent <==> r in Window(s, table) {
      if r in sent {
        var k :| 0 <= k < pass.pages && r in pages[k].table;
      }
      if r in Window(s, table) { StableRowIsSent(s, s.since, NO_ID, pages, r); }
    }
    OrderedIsUnique(sent, Window(s, table));
    FrontierIsLastSent(s, s.since, NO_ID, pages);
  }

  /** A pass over a quiet table with pages enough to read does complete, for every page size. */
  lemma QuietPassCompletes(s: Settings, table: Table, pages: seq<Page>)
    requires Quiet(pages, table) && HasIds(table) && Decodes(Window(s, table))
    requires |pages| > FullPages(|Window(s, table)|, s.limit)
    ensures CompletesOver(s, pages, table)
  {
    QuietReplay(s, s.since, NO_ID, table, pages);
    var pass := Loop(s, true, s.since, NO_ID, pages);
    forall k | 0 <= k < pass.pages ensures pages[k].table == table {
      assert pages[k] in pages;
    }
  }

  /** The same pass makes exactly floor(n / limit) + 1 reads and ceil(n / limit) sends. */
  lemma QuietPassCounts(s: Settings, table: Table, pages: seq<Page>)
    requires Quiet(pages, table) && HasIds(table) && Decodes(Window(s, table))
    requires |pages| > |Window(s, table)| / s.limit
    ensures var n := |Window(s, table)|;
            var pass := Loop(s, true, s.since, NO_ID, pages);
            pass.pages == n / s.limit + 1 && |pass.acks| == n / s.limit + if n % s.limit == 0 then 0 else 1
  {
    PageCounts(|Window(s, table)|, s.limit);
    QuietReplay(s, s.since, NO_ID, table, pages);
  }

  /** Batching is unobservable: two completed passes over the same table, whatever their page sizes and on whichever of
      the two completion paths they end, deliver the same rows in the same order and write the same cursor. */
  lemma BatchingIsUnobservable(s: Settings, limit: PageLimit, cursor: Time, table: Table, pages: seq<Page>,
      pages2: seq<Page>)
    requires s.replay && HasIds(table)
    requires CompletesOver(s, pages, table) && CompletesOver(s.(limit := limit), pages2, table)
    ensures var one := Loop(s, true, s.since, NO_ID, pages);
            var two := Loop(s.(limit := limit), true, s.since, NO_ID, pages2);
            Concat(one.acks) == Concat(two.acks)
            && CursorWrite(s, cursor, false, one.end) == CursorWrite(s.(limit := limit), cursor, false, two.end)
  {
    CompletionWrite(s, cursor, table, pages);
    CompletionWrite(s.(limit := limit), cursor, table, pages2);
  }

  lemma CompletionWrite(s: Settings, cursor: Time, table: Table, pages: seq<Page>)
    requires HasIds(table) && CompletesOver(s, pages, table)
    ensures var pass := Loop(s, true, s.since, NO_ID, pages);
            Concat(pass.acks) == Sorted(Pending(table, s.since, s.until, NO_ID))
            && CursorWrite(s, cursor, false, pass.end) == Some(CompletionCursor(s, cursor, WindowEnd(s, table)))
  {
    CompletedPass(s, table, pages);
    DrainedWrite(s, cursor, Loop(s, true, s.since, NO_ID, pages).end);
  }

  lemma DrainedWrite(s: Settings, cursor: Time, end: End)
    requires end.Drained()
    ensures CursorWrite(s, cursor, false, end) == Some(CompletionCursor(s, cursor, end.frontier))
  {
  }
}
