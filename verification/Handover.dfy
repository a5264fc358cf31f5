/** From replay to polling on a quiet table: what is sent, and how often. */
module Handover {
  import opened Clock
  import opened Rows
  import opened Reader
  import opened State
  import opened Protocol
  import opened Paging
  import opened Runs
  import opened Cursors
  import opened Starts

  /** The rows a poll at this cursor has still to deliver, in order. */
  function Unread(table: Table, cursor: Time): seq<Row> {
    Sorted(Pending(table, cursor, ZERO_TIME, NO_ID))
  }

  /** No page boundary of the listing falls between two rows with the same timestamp. */
  predicate NoSplitTies(q: seq<Row>, limit: PageLimit) {
    |q| > limit ==> q[limit - 1].t < q[limit].t && NoSplitTies(q[limit..], limit)
  }

  // ------------------------------------------------------------------ page after page

  lemma UnreadFacts(table: Table, cursor: Time, k: nat)
    requires 0 < k <= |Unread(table, cursor)|
    ensures var q, last := Unread(table, cursor), Unread(table, cursor)[k - 1];
            && Ordered(q) && Ordered(Unread(table, last.OccurredAt())) && last in q && last.t > UnixMilli(cursor)
            && (forall r :: r in Unread(table, last.OccurredAt()) <==> r in table && r.tokens && r.t > last.t)
            && (forall r :: r in q <==> r in table && r.tokens && r.t > UnixMilli(cursor))
  {
    var last := Unread(table, cursor)[k - 1];
    SortedFacts(Pending(table, cursor, ZERO_TIME, NO_ID));
    assert last in Unread(table, cursor);
    SortedFacts(Pending(table, last.OccurredAt(), ZERO_TIME, NO_ID));
    MilliBoundsAreExact(last.t, cursor);
  }

  lemma RestIsUnread(table: Table, cursor: Time, k: nat)
    requires 0 < k <= |Unread(table, cursor)|
    requires var q := Unread(table, cursor); k == |q| || q[k - 1].t < q[k].t
    ensures Unread(table, Unread(table, cursor)[k - 1].OccurredAt()) == Unread(table, cursor)[k..]
  {
    var q := Unread(table, cursor);
    var last := q[k - 1];
    var next := Unread(table, last.OccurredAt());
    UnreadFacts(table, cursor, k);
    OrderedSplit(q, k);
    forall r ensures r in next <==> r in q[k..] {
      if r in next { assert Before(last, r) && r in q; }
      if r in q[k..] {
        var i :| k <= i < |q| && q[i] == r;
        assert i == k || Before(q[k], q[i]);
      }
    }
    OrderedSlice(q, k, |q|);
    OrderedIsUnique(next, q[k..]);
  }

  lemma TiedRowIsNotUnread(table: Table, cursor: Time, k: nat)
    requires 0 < k < |Unread(table, cursor)| && Unread(table, cursor)[k - 1].t >= Unread(table, cursor)[k].t
    ensures Unread(table, cursor)[k] !in Unread(table, Unread(table, cursor)[k - 1].OccurredAt())
    ensures Unread(table, Unread(table, cursor)[k - 1].OccurredAt()) != Unread(table, cursor)[k..]
  {
    UnreadFacts(table, cursor, k);
    assert Unread(table, cursor)[k..][0] == Unread(table, cursor)[k];
  }

  function PageSize(q: seq<Row>, limit: PageLimit): nat { if |q| <= limit then |q| else limit }

  /** No page can be delivered: no row is unread, or one on the next page does not decode. */
  predicate Stuck(q: seq<Row>, limit: PageLimit) { q == [] || !Decodes(q[..PageSize(q, limit)]) }

  /** Page after page of the unread rows. */
  function Paged(table: Table, cursor: Time, limit: PageLimit, n: nat): seq<Row>
    decreases n
  {
    var q := Unread(table, cursor);
    if n == 0 || Stuck(q, limit) then []
    else
      var k := PageSize(q, limit);
      q[..k] + Paged(table, q[k - 1].OccurredAt(), limit, n - 1)
  }

  /** The cursor after those pages. */
  function PagedCursor(table: Table, cursor: Time, limit: PageLimit, n: nat): Time
    decreases n
  {
    var q := Unread(table, cursor);
    if n == 0 || Stuck(q, limit) then cursor
    else PagedCursor(table, q[PageSize(q, limit) - 1].OccurredAt(), limit, n - 1)
  }

  lemma {:induction false} PagedIsUnread(table: Table, cursor: Time, limit: PageLimit, n: nat)
    ensures forall r | r in Paged(table, cursor, limit, n) :: r in Unread(table, cursor)
    decreases n
  {
    var q := Unread(table, cursor);
    if n > 0 && !Stuck(q, limit) {
      var k := PageSize(q, limit);
      UnreadShrinks(table, cursor, k);
      PagedIsUnread(table, q[k - 1].OccurredAt(), limit, n - 1);
    }
  }

  /** Pages until nothing is unread are the whole listing if and only if no boundary splits a tie. */
  lemma {:induction false} PagedDrainsExactly(table: Table, cursor: Time, limit: PageLimit, n: nat)
    requires Unread(table, PagedCursor(table, cursor, limit, n)) == []
    ensures Paged(table, cursor, limit, n) == Unread(table, cursor) <==> NoSplitTies(Unread(table, cursor), limit)
    decreases n
  {
    var q := Unread(table, cursor);
    if q != [] {
      PagedDrainsExactly(table, q[PageSize(q, limit) - 1].OccurredAt(), limit, n - 1);
      PageThenDrains(table, cursor, limit, n);
    }
  }

  lemma PageThenDrains(table: Table, cursor: Time, limit: PageLimit, n: nat)
    requires n > 0 && !Stuck(Unread(table, cursor), limit)
    requires var q := Unread(table, cursor);
             var next := q[PageSize(q, limit) - 1].OccurredAt();
             Paged(table, next, limit, n - 1) == Unread(table, next) <==> NoSplitTies(Unread(table, next), limit)
    ensures Paged(table, cursor, limit, n) == Unread(table, cursor) <==> NoSplitTies(Unread(table, cursor), limit)
  {
    var q := Unread(table, cursor);
    var next := q[PageSize(q, limit) - 1].OccurredAt();
    PagedIsUnread(table, next, limit, n - 1);
    FirstPageDrains(table, cursor, limit, Paged(table, next, limit, n - 1));
  }

  lemma FirstPageDrains(table: Table, cursor: Time, limit: PageLimit, later: seq<Row>)
    requires Unread(table, cursor) != []
    requires var q := Unread(table, cursor);
             var next := Unread(table, q[PageSize(q, limit) - 1].OccurredAt());
             (later == next <==> NoSplitTies(next, limit)) && forall r | r in later :: r in next
    ensures var q := Unread(table, cursor);
            q[..PageSize(q, limit)] + later == q <==> NoSplitTies(q, limit)
  {
    var q := Unread(table, cursor);
    var k := PageSize(q, limit);
    SuffixCancels(q, k, later);
    if k < |q| && q[k - 1].t >= q[k].t {
      TiedRowIsNotUnread(table, cursor, k);
    } else {
      RestIsUnread(table, cursor, k);
    }
  }

  lemma SuffixCancels(q: seq<Row>, k: nat, later: seq<Row>)
    requires k <= |q|
    ensures q[..k] + later == q <==> later == q[k..]
    ensures later == q[k..] && k < |q| ==> q[k] in later
  {
    assert q == q[..k] + q[k..];
    assert (q[..k] + later)[k..] == later;
    assert k < |q| ==> q[k] == q[k..][0];
  }

  /** As many pages as there are unread rows leave none unread. */
  lemma {:induction false} EnoughPagesDrain(table: Table, cursor: Time, limit: PageLimit, n: nat)
    requires n >= |Unread(table, cursor)| && Decodes(Unread(table, cursor))
    ensures Unread(table, PagedCursor(table, cursor, limit, n)) == []
    decreases n
  {
    var q := Unread(table, cursor);
    if q != [] {
      var k := PageSize(q, limit);
      UnreadShrinks(table, cursor, k);
      EnoughPagesDrain(table, q[k - 1].OccurredAt(), limit, n - 1);
    }
  }

  lemma UnreadShrinks(table: Table, cursor: Time, k: nat)
    requires 0 < k <= |Unread(table, cursor)|
    ensures |Unread(table, Unread(table, cursor)[k - 1].OccurredAt())| < |Unread(table, cursor)|
    ensures forall r | r in Unread(table, Unread(table, cursor)[k - 1].OccurredAt()) :: r in Unread(table, cursor)
  {
    var last := Unread(table, cursor)[k - 1];
    var now, next := Pending(table, cursor, ZERO_TIME, NO_ID), Pending(table, last.OccurredAt(), ZERO_TIME, NO_ID);
    SortedFacts(now);
    SortedFacts(next);
    assert last in Sorted(now);
    MilliBoundsAreExact(last.t, cursor);
    assert next <= now - {last};
    SortedLength(now);
    SortedLength(next);
    SubsetIsSmaller(next, now - {last});
  }

  lemma SubsetIsSmaller(a: set<Row>, b: set<Row>)
    requires a <= b
    ensures |a| <= |b|
  {
    assert b == a + (b - a);
  }

  lemma {:induction false} SortedLength(s: set<Row>)
    requires Distinct(s)
    ensures |Sorted(s)| == |s|
  {
    if s != {} {
      LeastExists(s);
      LeastIsUnique(s);
      var m :| m in s && IsLeast(m, s);
      SortedLength(s - {m});
    }
  }

  // ------------------------------------------------------------------ polling a quiet table

  /** A poll whose database opens, whose read works and whose send, if any, is acknowledged. Its save may fail. */
  predicate Healthy(env: VisitEnv) {
    env.opens && env.pages != [] && env.pages[0].readOk && env.pages[0].sendOk
  }

  predicate Works(e: Event, path: Path) { Visits(e, path) && Healthy(e.env) }

  function WorkingPolls(events: seq<Event>, path: Path): nat {
    if events == [] then 0 else (if Works(events[0], path) then 1 else 0) + WorkingPolls(events[1..], path)
  }

  /** Every poll of this database in the run sees the same table. */
  predicate PollsSee(events: seq<Event>, path: Path, table: Table) {
    forall e | e in events && Visits(e, path) && e.env.pages != [] :: e.env.pages[0].table == table
  }

  lemma PollRead(table: Table, cursor: Time, limit: PageLimit)
    ensures var q := Unread(table, cursor); ReadRecords(table, cursor, limit) == Scanned(q[..PageSize(q, limit)])
  {
    var q := Unread(table, cursor);
    UnboundedWindowIsPlainRead(table, cursor, NO_ID, limit);
    WindowPage(table, cursor, ZERO_TIME, NO_ID, limit);
    assert First(q, limit) == q[..PageSize(q, limit)];
  }

  /** The page a poll sends: the first unread rows. */
  lemma PollPage(s: Settings, table: Table, cursor: Time, page: Page)
    requires page.table == table
    ensures var turn, q := TakeTurn(s, false, cursor, NO_ID, page), Unread(table, cursor);
            if page.readOk && page.sendOk && !Stuck(q, s.limit)
            then turn == Turn(Some(q[..PageSize(q, s.limit)]), Some(Polled(q[PageSize(q, s.limit) - 1].OccurredAt())))
            else turn.ack.None? && turn.end in {Some(ReadFailed), Some(Idle), Some(SendFailed)}
  {
    PollRead(table, cursor, s.limit);
  }

  lemma PollPass(p: Process, path: Path, env: VisitEnv, table: Table)
    requires !(p.settings.replay && path !in p.replayed) && !PassOf(p, path, env).end.Died?
    requires env.pages != [] ==> env.pages[0].table == table
    ensures var pass, c := PassOf(p, path, env), CursorOf(p.cursors, path);
            var q, write := Unread(table, c), CursorWrite(p.settings, c, path in p.replayed, pass.end);
            var k := PageSize(q, p.settings.limit);
            if Healthy(env) && !Stuck(q, p.settings.limit)
            then Concat(pass.acks) == q[..k] && write == Some(q[k - 1].OccurredAt())
            else Concat(pass.acks) == [] && write == None
  {
    var c := CursorOf(p.cursors, path);
    if env.opens {
      assert env.pages != [];
      PollPage(p.settings, table, c, env.pages[0]);
      LoopStops(p.settings, false, c, NO_ID, env.pages);
    }
  }

  /** `w'` is `w` after `n` pages of this table were delivered to the database. */
  predicate PollsDelivered(w: World, w': World, path: Path, table: Table, n: nat)
    requires w.process.Some?
  {
    var c, limit := CursorIn(w, path), w.process.value.settings.limit;
    && Polls(w', path) && w'.process.value.settings == w.process.value.settings
    && RowsTo(w'.log, path) == RowsTo(w.log, path) + Paged(table, c, limit, n)
    && CursorIn(w', path) == PagedCursor(table, c, limit, n)
  }

  /** A poll that works delivers one page and moves the cursor to its last row, whatever its save does. Any other
      changes neither. */
  lemma OnePoll(w: World, path: Path, env: VisitEnv, table: Table)
    requires Polls(w, path) && Step(w, VisitDb(path, env)).process.Some?
    requires env.pages != [] ==> env.pages[0].table == table
    ensures PollsDelivered(w, Step(w, VisitDb(path, env)), path, table, if Healthy(env) then 1 else 0)
  {
    var q, limit := Unread(table, CursorIn(w, path)), w.process.value.settings.limit;
    VisitActs(w, path, env);
    PollPass(w.process.value, path, env, table);
    OnePage(table, CursorIn(w, path), limit);
    assert RowsTo(w.log, path) + [] == RowsTo(w.log, path);
  }

  lemma OnePage(table: Table, cursor: Time, limit: PageLimit)
    ensures Paged(table, cursor, limit, 0) == [] && PagedCursor(table, cursor, limit, 0) == cursor
    ensures var q := Unread(table, cursor);
            var k := PageSize(q, limit);
            if Stuck(q, limit)
            then Paged(table, cursor, limit, 1) == [] && PagedCursor(table, cursor, limit, 1) == cursor
            else Paged(table, cursor, limit, 1) == q[..k]
                 && PagedCursor(table, cursor, limit, 1) == q[k - 1].OccurredAt()
  {
    var q := Unread(table, cursor);
    if !Stuck(q, limit) {
      var k := PageSize(q, limit);
      assert Paged(table, q[k - 1].OccurredAt(), limit, 0) == [];
      assert q[..k] + [] == q[..k];
    }
  }

  lemma Regroup<T>(a: seq<T>, b: seq<T>, c: seq<T>)
    ensures a + (b + c) == (a + b) + c
  {
  }

  /** Pages after at most one page. */
  lemma PagedJoin(table: Table, cursor: Time, limit: PageLimit, m: nat, n: nat)
    requires m <= 1
    ensures var after := PagedCursor(table, cursor, limit, m);
            && Paged(table, cursor, limit, m + n) == Paged(table, cursor, limit, m) + Paged(table, after, limit, n)
            && PagedCursor(table, cursor, limit, m + n) == PagedCursor(table, after, limit, n)
  {
    OnePage(table, cursor, limit);
    var q := Unread(table, cursor);
    if m == 1 && !Stuck(q, limit) {
      assert Paged(table, cursor, limit, 1 + n)
          == q[..PageSize(q, limit)] + Paged(table, q[PageSize(q, limit) - 1].OccurredAt(), limit, n);
    } else {
      assert [] + Paged(table, cursor, limit, n) == Paged(table, cursor, limit, n);
    }
  }

  lemma DeliveredJoin(w: World, next: World, w': World, path: Path, table: Table, m: nat, n: nat)
    requires m <= 1 && w.process.Some?
    requires PollsDelivered(w, next, path, table, m) && PollsDelivered(next, w', path, table, n)
    ensures PollsDelivered(w, w', path, table, m + n)
  {
    var c, limit, sent := CursorIn(w, path), w.process.value.settings.limit, RowsTo(w.log, path);
    PagedJoin(table, c, limit, m, n);
    Regroup(sent, Paged(table, c, limit, m), Paged(table, CursorIn(next, path), limit, n));
  }

  /** Over a quiet table, the polls of a run that work deliver page after page of the unread rows, up to a page that
      does not decode, whatever happens in the other polls, in the saves, and to other databases. */
  lemma {:induction false} PollsArePaged(w: World, events: seq<Event>, path: Path, table: Table)
    requires Polls(w, path) && LivesThrough(w, events) && PollsSee(events, path, table)
    ensures PollsDelivered(w, Run(w, events), path, table, WorkingPolls(events, path))
    decreases |events|
  {
    if events == [] {
      NoPolls(w, w, path, table);
    } else {
      var e, next := events[0], Step(w, events[0]);
      assert e in events && forall x | x in events[1..] :: x in events;
      LivesOn(w, events);
      if Visits(e, path) {
        OnePoll(w, path, e.env, table);
      } else {
        OthersSpare(w, e, path);
        NoPolls(w, next, path, table);
      }
      PollsArePaged(next, events[1..], path, table);
      DeliveredJoin(w, next, Run(w, events), path, table, if Works(e, path) then 1 else 0,
          WorkingPolls(events[1..], path));
    }
  }

  lemma NoPolls(w: World, w': World, path: Path, table: Table)
    requires Polls(w, path) && SameFor(w, w', path)
    ensures PollsDelivered(w, w', path, table, 0)
  {
    assert RowsTo(w.log, path) + [] == RowsTo(w.log, path);
  }

  /** Polling a quiet table until idle delivers every row above the cursor, each once and in order, if and only if
      no page boundary splits a group of rows with the same timestamp. */
  lemma PollingDrainsExactly(w: World, events: seq<Event>, path: Path, table: Table)
    requires Polls(w, path) && LivesThrough(w, events) && PollsSee(events, path, table)
    requires Unread(table, CursorIn(Run(w, events), path)) == []
    ensures var unread := Unread(table, CursorIn(w, path));
            RowsTo(Run(w, events).log, path) == RowsTo(w.log, path) + unread
            <==> NoSplitTies(unread, w.process.value.settings.limit)
  {
    var c, limit, n := CursorIn(w, path), w.process.value.settings.limit, WorkingPolls(events, path);
    PollsArePaged(w, events, path, table);
    PagedDrainsExactly(table, c, limit, n);
    var sent, paged := RowsTo(w.log, path), Paged(table, c, limit, n);
    assert (sent + paged)[|sent|..] == paged && (sent + Unread(table, c))[|sent|..] == Unread(table, c);
  }

  /** Polling does become idle: as many polls that work as there are unread rows are enough. */
  lemma PollingGetsIdle(w: World, events: seq<Event>, path: Path, table: Table)
    requires Polls(w, path) && LivesThrough(w, events) && PollsSee(events, path, table)
    requires var unread := Unread(table, CursorIn(w, path));
             Decodes(unread) && WorkingPolls(events, path) >= |unread|
    ensures Unread(table, CursorIn(Run(w, events), path)) == []
  {
    PollsArePaged(w, events, path, table);
    EnoughPagesDrain(table, CursorIn(w, path), w.process.value.settings.limit, WorkingPolls(events, path));
  }

  // ------------------------------------------------------------------ polling while the table changes

  /** From `w` to `w'` the rows `rows` were delivered to the database: in order, each once, and all above the cursor of
      `w`. The cursor of `w'` is at the last of them. */
  predicate DeliveredInOrder(w: World, w': World, path: Path, rows: seq<Row>) {
    && Polls(w, path) && Polls(w', path)
    && RowsTo(w'.log, path) == RowsTo(w.log, path) + rows
    && Ordered(rows) && (forall r | r in rows :: r.OccurredAt() > CursorIn(w, path))
    && CursorIn(w', path) == if rows == [] then CursorIn(w, path) else Last(rows).OccurredAt()
  }

  lemma PageInOrder(table: Table, cursor: Time, limit: PageLimit, n: nat)
    requires n <= 1
    ensures var rows := Paged(table, cursor, limit, n);
            && Ordered(rows) && (forall r | r in rows :: r.OccurredAt() > cursor)
            && PagedCursor(table, cursor, limit, n) == if rows == [] then cursor else Last(rows).OccurredAt()
  {
    OnePage(table, cursor, limit);
    var q := Unread(table, cursor);
    SortedFacts(Pending(table, cursor, ZERO_TIME, NO_ID));
    OrderedSlice(q, 0, PageSize(q, limit));
    forall r | r in Paged(table, cursor, limit, n) ensures r.OccurredAt() > cursor {
      assert r in q;
      MilliBoundsAreExact(r.t, cursor);
    }
  }

  /** A poll delivers rows of whatever table it meets in order, or none. */
  lemma PollInOrder(w: World, path: Path, env: VisitEnv) returns (rows: seq<Row>)
    requires Polls(w, path) && Step(w, VisitDb(path, env)).process.Some?
    ensures DeliveredInOrder(w, Step(w, VisitDb(path, env)), path, rows)
  {
    var table: Table := if env.pages == [] then {} else env.pages[0].table;
    var n := if Healthy(env) then 1 else 0;
    rows := Paged(table, CursorIn(w, path), w.process.value.settings.limit, n);
    OnePoll(w, path, env, table);
    PageInOrder(table, CursorIn(w, path), w.process.value.settings.limit, n);
  }

  lemma InOrderJoin(w: World, next: World, w': World, path: Path, first: seq<Row>, rest: seq<Row>)
    requires DeliveredInOrder(w, next, path, first) && DeliveredInOrder(next, w', path, rest)
    ensures DeliveredInOrder(w, w', path, first + rest)
  {
    Regroup(RowsTo(w.log, path), first, rest);
    if first == [] {
      assert first + rest == rest;
    } else {
      assert Last(first) in first;
      OrderedJoin(first, rest);
      if rest == [] { assert first + rest == first; } else { assert Last(first + rest) == Last(rest); }
    }
  }

  /** Whatever happens to the tables and to the saves, the rows that the polls of one process deliver from a database
      strictly increase in (time_updated, id) and lie above the cursor. */
  lemma {:induction false} PolledInOrder(w: World, events: seq<Event>, path: Path) returns (rows: seq<Row>)
    requires Polls(w, path) && LivesThrough(w, events)
    ensures DeliveredInOrder(w, Run(w, events), path, rows)
    decreases |events|
  {
    rows := [];
    if events == [] {
      assert RowsTo(w.log, path) + [] == RowsTo(w.log, path);
    } else {
      var e, next := events[0], Step(w, events[0]);
      LivesOn(w, events);
      if Visits(e, path) {
        rows := PollInOrder(w, path, e.env);
      } else {
        OthersSpare(w, e, path);
        assert RowsTo(w.log, path) + [] == RowsTo(w.log, path);
      }
      var rest := PolledInOrder(next, events[1..], path);
      InOrderJoin(w, next, Run(w, events), path, rows, rest);
      rows := rows + rest;
    }
  }

  /** So no row goes out twice. */
  lemma NoRowPolledTwice(w: World, events: seq<Event>, path: Path, r: Row)
    requires Polls(w, path) && LivesThrough(w, events)
    ensures multiset(RowsTo(Run(w, events).log, path))[r] <= multiset(RowsTo(w.log, path))[r] + 1
  {
    var rows := PolledInOrder(w, events, path);
    OrderedCountsOnce(rows, r);
  }

  /** On a fresh machine: a process started without replay delivers every usage row of a quiet table, each once and in
      order, if and only if no page boundary splits a tie, once enough of its polls work. */
  lemma FreshRunDelivers(config: Config, now: Time, path: Path, events: seq<Event>, table: Table)
    requires !config.replay && Decodes(Unread(table, ZERO_TIME)) && PollsSee(events, path, table)
    requires LivesThrough(Step(FRESH_WORLD, Start(config, now, WORKING)), events)
    requires WorkingPolls(events, path) >= |Unread(table, ZERO_TIME)|
    ensures RowsTo(Run(FRESH_WORLD, [Start(config, now, WORKING)] + events).log, path) == Unread(table, ZERO_TIME)
       <==> NoSplitTies(Unread(table, ZERO_TIME), config.batchLimit)
  {
    var w := Step(FRESH_WORLD, Start(config, now, WORKING));
    FreshStart(config, now, path);
    StartSettings(FRESH_WORLD, config, now, WORKING);
    PollingGetsIdle(w, events, path, table);
    PollingDrainsExactly(w, events, path, table);
    assert [] + Unread(table, ZERO_TIME) == Unread(table, ZERO_TIME);
    var run := [Start(config, now, WORKING)] + events;
    assert run[0] == Start(config, now, WORKING) && run[1..] == events;
  }

  // ------------------------------------------------------------------ replay, then polling

  /** In one process, a replay pass over a quiet table completes, and polls of the same table, any of which may fail,
      go on until no row is unread. No boundary of their pages splits a tie. */
  predicate HandsOver(w: World, path: Path, env: VisitEnv, events: seq<Event>, table: Table) {
    && Replays(w, path) && LivesThrough(w, [VisitDb(path, env)] + events)
    && HasIds(table) && PollsSee(events, path, table)
    && var s, c := w.process.value.settings, CursorIn(w, path);
       && env.opens && CompletesOver(s, env.pages, table)
       && NoSplitTies(Unread(table, ReplayedCursor(s, c, table)), s.limit)
       && Unread(table, CursorIn(Run(w, [VisitDb(path, env)] + events), path)) == []
  }

  /** The rows delivered are the window and then what is above the cursor the replay left: the latch makes the visits
      after it polls, and they start from the cursor it stored. */
  lemma ReplayThenPolls(w: World, path: Path, env: VisitEnv, events: seq<Event>, table: Table)
    requires HandsOver(w, path, env, events, table)
    ensures var s, c := w.process.value.settings, CursorIn(w, path);
            RowsTo(Run(w, [VisitDb(path, env)] + events).log, path)
              == RowsTo(w.log, path) + Window(s, table) + Unread(table, ReplayedCursor(s, c, table))
  {
    var run := [VisitDb(path, env)] + events;
    var s, c, next := w.process.value.settings, CursorIn(w, path), Step(w, VisitDb(path, env));
    assert run[0] == VisitDb(path, env) && run[1..] == events;
    LivesOn(w, run);
    CompletedVisit(w, path, env, table);
    PollingDrainsExactly(next, events, path, table);
  }

  lemma CountIn(table: Table, since: Time, until: Time, r: Row)
    ensures multiset(Sorted(Pending(table, since, until, NO_ID)))[r]
         == if r in table && r.tokens && r.t > UnixMilli(since) && WithinBound(r, UntilMilli(until)) then 1 else 0
  {
    SortedFacts(Pending(table, since, until, NO_ID));
    OrderedCountsOnce(Sorted(Pending(table, since, until, NO_ID)), r);
  }

  /** How often the run sends a row, before and in it. */
  lemma HandoverCounts(w: World, path: Path, env: VisitEnv, events: seq<Event>, table: Table, r: Row)
    requires HandsOver(w, path, env, events, table)
    ensures var s, c := w.process.value.settings, CursorIn(w, path);
            multiset(RowsTo(Run(w, [VisitDb(path, env)] + events).log, path))[r]
              == multiset(RowsTo(w.log, path))[r]
                 + multiset(Window(s, table))[r] + multiset(Unread(table, ReplayedCursor(s, c, table)))[r]
  {
    ReplayThenPolls(w, path, env, events, table);
  }

  /** Seamless handover: when the stored cursor lies in the window's span, a completed replay and then polling until
      idle deliver every usage row after `since` exactly once, and nothing else. Only where the bound vanishes, the
      rows after it go out a second time. */
  lemma SeamlessHandover(w: World, path: Path, env: VisitEnv, events: seq<Event>, table: Table, r: Row)
    requires HandsOver(w, path, env, events, table)
    requires var s, c := w.process.value.settings, CursorIn(w, path); s.since <= c && (IsZero(s.until) || c <= s.until)
    ensures var s := w.process.value.settings;
            multiset(RowsTo(Run(w, [VisitDb(path, env)] + events).log, path))[r]
              == multiset(RowsTo(w.log, path))[r]
                 + (if r in table && r.tokens && r.OccurredAt() > s.since then 1 else 0)
                 + (if r in table && r.tokens && BoundVanishes(s.until) && r.OccurredAt() > s.until then 1 else 0)
  {
    var s, c := w.process.value.settings, CursorIn(w, path);
    HandoverCounts(w, path, env, events, table, r);
    SpanCounts(s, c, table, r);
  }

  /** Where the polls after a replay of this span start: a row of the window is at or below it, unless the bound
      vanishes and the row is after it; a later row is not. */
  lemma SpanSplits(s: Settings, cursor: Time, table: Table, r: Row)
    requires s.since <= cursor && (IsZero(s.until) || cursor <= s.until)
    requires r in table && r.tokens && r.OccurredAt() > s.since
    ensures var later := r.OccurredAt() > ReplayedCursor(s, cursor, table);
            if r in Window(s, table) then later <==> BoundVanishes(s.until) && r.OccurredAt() > s.until
            else later && !BoundVanishes(s.until)
  {
    SortedFacts(Pending(table, s.since, s.until, NO_ID));
    MilliBoundsAreExact(r.t, s.since);
    MilliBoundsAreExact(r.t, s.until);
    if r in Window(s, table) { WindowEndBounds(s, table, r); }
  }

  lemma SpanCounts(s: Settings, cursor: Time, table: Table, r: Row)
    requires s.since <= cursor && (IsZero(s.until) || cursor <= s.until)
    ensures multiset(Window(s, table))[r] + multiset(Unread(table, ReplayedCursor(s, cursor, table)))[r]
         == (if r in table && r.tokens && r.OccurredAt() > s.since then 1 else 0)
          + (if r in table && r.tokens && BoundVanishes(s.until) && r.OccurredAt() > s.until then 1 else 0)
  {
    var after := ReplayedCursor(s, cursor, table);
    CountIn(table, s.since, s.until, r);
    CountIn(table, after, ZERO_TIME, r);
    MilliBoundsAreExact(r.t, s.since);
    MilliBoundsAreExact(r.t, s.until);
    MilliBoundsAreExact(r.t, after);
    SortedFacts(Pending(table, s.since, s.until, NO_ID));
    if r in table && r.tokens && r.OccurredAt() > s.since { SpanSplits(s, cursor, table, r); }
  }

  /** When the window starts after the stored cursor, no row after that cursor is missed, and exactly the rows of the
      window are delivered twice. */
  lemma LateWindowRepeatsOnlyItself(w: World, path: Path, env: VisitEnv, events: seq<Event>, table: Table, r: Row)
    requires HandsOver(w, path, env, events, table) && w.process.value.settings.since > CursorIn(w, path)
    ensures var s, c := w.process.value.settings, CursorIn(w, path);
            multiset(RowsTo(Run(w, [VisitDb(path, env)] + events).log, path))[r]
              == multiset(RowsTo(w.log, path))[r]
                 + (if r in table && r.tokens && r.OccurredAt() > c then 1 else 0)
                 + (if r in table && r.tokens && r.OccurredAt() > s.since
                       && (IsZero(s.until) || BoundVanishes(s.until) || r.OccurredAt() <= s.until) then 1 else 0)
  {
    var s, c := w.process.value.settings, CursorIn(w, path);
    HandoverCounts(w, path, env, events, table, r);
    CountIn(table, s.since, s.until, r);
    CountIn(table, c, ZERO_TIME, r);
    MilliBoundsAreExact(r.t, s.since);
    MilliBoundsAreExact(r.t, s.until);
    MilliBoundsAreExact(r.t, c);
  }

  // ------------------------------------------------------------------ replay heals

  /** A full, unbounded replay over a quiet table completes in a process, and its cursor is saved. */
  predicate HealingReplay(w: World, path: Path, env: VisitEnv, table: Table) {
    && Replays(w, path) && env.opens && env.save.Written? && HasIds(table)
    && var s := w.process.value.settings;
       IsZero(s.since) && IsZero(s.until) && CompletesOver(s, env.pages, table) && CursorIn(w, path) >= ZERO_TIME
  }

  /** The newest usage row of the table, or the cursor if that is newer. */
  predicate NewestOrStored(after: Time, cursor: Time, table: Table) {
    && after >= cursor && (forall r | r in table && r.tokens :: r.OccurredAt() <= after)
    && (after == cursor || exists r :: r in table && r.tokens && r.OccurredAt() == after)
  }

  /** Such a replay acknowledges every usage row after the zero time, whatever was skipped before, and leaves the cursor
      at the newest row or the stored cursor. In the file it has that value too, unless its year has not four digits. */
  lemma ReplayHeals(w: World, path: Path, env: VisitEnv, table: Table)
    requires HealingReplay(w, path, env, table)
    ensures var w', c := Step(w, VisitDb(path, env)), CursorIn(w, path);
            && Polls(w', path) && NewestOrStored(CursorIn(w', path), c, table)
            && (forall r | r in table && r.tokens && r.OccurredAt() > ZERO_TIME :: r in RowsTo(w'.log, path))
            && FileCursor(w'.file, path) == if Printable(CursorIn(w', path)) then CursorIn(w', path) else ZERO_TIME
  {
    var s, w' := w.process.value.settings, Step(w, VisitDb(path, env));
    CompletedVisit(w, path, env, table);
    FullWindow(s, CursorIn(w, path), table);
    LoadUndoesSave(w.file, w'.process.value.cursors);
  }

  lemma FullWindow(s: Settings, cursor: Time, table: Table)
    requires IsZero(s.since) && IsZero(s.until) && cursor >= ZERO_TIME
    ensures NewestOrStored(Max(cursor, WindowEnd(s, table)), cursor, table)
    ensures forall r | r in table && r.tokens && r.OccurredAt() > ZERO_TIME :: r in Window(s, table)
  {
    var q := Window(s, table);
    SortedFacts(Pending(table, s.since, s.until, NO_ID));
    forall r | r in table && r.tokens
      ensures r.OccurredAt() > ZERO_TIME ==> r in q
      ensures r.OccurredAt() <= Max(cursor, WindowEnd(s, table))
    {
      MilliBoundsAreExact(r.t, s.since);
      if r.OccurredAt() > ZERO_TIME {
        assert r in q;
        WindowEndBounds(s, table, r);
      }
    }
    if q != [] { assert Last(q) in q; }
  }

  /** At a cursor no older than any row, whatever process loaded it, polls deliver nothing. */
  lemma NothingLeftToPoll(w: World, events: seq<Event>, path: Path, table: Table)
    requires Polls(w, path) && LivesThrough(w, events) && PollsSee(events, path, table)
    requires forall r | r in table && r.tokens :: r.OccurredAt() <= CursorIn(w, path)
    ensures RowsTo(Run(w, events).log, path) == RowsTo(w.log, path)
    ensures CursorIn(Run(w, events), path) == CursorIn(w, path)
  {
    var c := CursorIn(w, path);
    assert Unread(table, c) == [] by {
      forall r | r in table ensures r !in Pending(table, c, ZERO_TIME, NO_ID) { MilliBoundsAreExact(r.t, c); }
    }
    PollsArePaged(w, events, path, table);
  }

  /** After a healing replay every later poll of the unchanged table sends nothing: in the same process, and in any
      process started without replay after it stopped. */
  lemma HealedForGood(w: World, path: Path, env: VisitEnv, table: Table, start: Event, events: seq<Event>)
    requires HealingReplay(w, path, env, table) && PollsSee(events, path, table)
    ensures var healed := Step(w, VisitDb(path, env));
            LivesThrough(healed, events) ==> RowsTo(Run(healed, events).log, path) == RowsTo(healed.log, path)
    ensures var healed := Step(w, VisitDb(path, env));
            var later := Run(healed, [Crash, start]);
            start.Start? && !start.config.replay && Printable(CursorIn(healed, path)) && LivesThrough(later, events) ==>
              later.process.Some? && CursorIn(later, path) == CursorIn(healed, path)
              && RowsTo(Run(later, events).log, path) == RowsTo(healed.log, path)
  {
    var healed := Step(w, VisitDb(path, env));
    ReplayHeals(w, path, env, table);
    if LivesThrough(healed, events) { NothingLeftToPoll(healed, events, path, table); }
    var later := Run(healed, [Crash, start]);
    if start.Start? && !start.config.replay && Printable(CursorIn(healed, path)) && LivesThrough(later, events) {
      Restarted(healed, start, path);
      if later.process.None? { StaysDown(later, events); }
      NothingLeftToPoll(later, events, path, table);
    }
  }

  /** A process started after a crash reads the cursors of the file. */
  lemma Restarted(w: World, start: Event, path: Path)
    requires start.Start?
    ensures var w' := Run(w, [Crash, start]);
            && w'.log == w.log
            && (w'.process.Some? ==>
                  CursorIn(w', path) == FileCursor(w.file, path)
                  && w'.process.value.settings.replay == start.config.replay
                  && w'.process.value.settings.limit == start.config.batchLimit)
  {
    var down := Step(w, Crash);
    assert [Crash, start] == [Crash] + [start];
    RunJoin(w, [Crash], [start]);
    assert Run(w, [Crash]) == down && Run(down, [start]) == Step(down, start);
  }

  // ------------------------------------------------------------------ a failed replay is read again

  /** A replay whose send fails on some page rewinds and saves the cursor; a process started without replay after a
      crash polls until idle. No boundary of its pages splits a tie. */
  predicate FailsThenPolls(w: World, path: Path, env: VisitEnv, table: Table, k: nat, m: nat, start: Event,
      events: seq<Event>)
  {
    && ReachesPage(w, path, env, table, k, m) && k < |env.pages| && env.pages[k].readOk && !env.pages[k].sendOk
    && m < |Window(w.process.value.settings, table)| && Decodes(NextRows(w, table, m)) && env.save.Written?
    && start.Start? && !start.config.replay && PollsSee(events, path, table)
    && var later := Run(Step(w, VisitDb(path, env)), [Crash, start]);
       var rewound := Min(w.process.value.settings.since, CursorIn(w, path));
       && Printable(rewound) && later.process.Some? && LivesThrough(later, events)
       && Run(later, events).process.Some? && Unread(table, CursorIn(Run(later, events), path)) == []
       && NoSplitTies(Unread(table, rewound), start.config.batchLimit)
  }

  /** Then no row after the rewound cursor is lost, whatever the failed replay had sent: the polls deliver them all. */
  lemma FailedReplayIsReadAgain(w: World, path: Path, env: VisitEnv, table: Table, k: nat, m: nat, start: Event,
      events: seq<Event>)
    requires FailsThenPolls(w, path, env, table, k, m, start, events)
    ensures var s, failed := w.process.value.settings, Step(w, VisitDb(path, env));
            RowsTo(Run(Run(failed, [Crash, start]), events).log, path)
              == RowsTo(w.log, path) + Window(s, table)[..m] + Unread(table, Min(s.since, CursorIn(w, path)))
  {
    var failed := Step(w, VisitDb(path, env));
    var later := Run(failed, [Crash, start]);
    FailedSendRewinds(w, path, env, table, k, m);
    LoadUndoesSave(w.file, w.process.value.cursors[path := Min(w.process.value.settings.since, CursorIn(w, path))]);
    Restarted(failed, start, path);
    PollingDrainsExactly(later, events, path, table);
  }
}
