/** No gaps: over any interleaving of polls, replay passes, failures, crashes and restarts, every usage row at or
    below a cursor, in memory or in the state file, has been acknowledged, unless a poll split it off. */
module NoGap {
  import opened Clock
  import opened Rows
  import opened Reader
  import opened State
  import opened Protocol
  import opened Paging
  import opened Runs
  import opened Cursors
  import opened Handover

  /** A row of a database that a poll has passed over. */
  datatype Loss = Loss(path: Path, row: Row)

  /** Usage rows of a table at or below a cursor are acknowledged, up to the given losses. A row stamped at or before
      the zero time is invisible to every read and so not counted. */
  ghost predicate Covered(table: Table, cursor: Time, log: seq<Delivery>, path: Path, lost: set<Loss>) {
    forall r | r in table && r.tokens && UnixMilli(ZERO_TIME) < r.t <= UnixMilli(cursor) ::
      Delivered(log, path, r) || Loss(path, r) in lost
  }

  /** No database has a gap below its cursor in the file or in memory, up to the given losses. */
  ghost predicate GapFreeUpTo(w: World, lost: set<Loss>) {
    && (forall path :: Covered(TableOf(w, path), FileCursor(w.file, path), w.log, path, lost))
    && (w.process.Some? ==> forall path ::
        Covered(TableOf(w, path), CursorOf(w.process.value.cursors, path), w.log, path, lost))
  }

  ghost predicate GapFree(w: World) { GapFreeUpTo(w, {}) }

  // ------------------------------------------------------------------ hypotheses on the surroundings

  /** Usage rows that are new in a table, inserted or with their timestamp bumped, are above `floor`. */
  predicate Arrivals(before: Table, after: Table, floor: int) {
    forall r | r in after && r !in before && r.tokens :: r.t > floor
  }

  /** The highest millisecond a cursor of this database has claimed. */
  function Floor(w: World, path: Path): int {
    var inFile := UnixMilli(FileCursor(w.file, path));
    if w.process.Some? then Max(inFile, UnixMilli(CursorOf(w.process.value.cursors, path))) else inFile
  }

  /** While a visit goes on, rows arrive above the cursors and above everything the visit has delivered. */
  predicate Orderly(s: Settings, replaying: bool, since: Time, afterId: Id, before: Table, floor: int, pages: seq<Page>)
    decreases |pages|
  {
    pages == [] ||
    (Arrivals(before, pages[0].table, floor) && (replaying ==> HasIds(pages[0].table)) &&
     var turn := TakeTurn(s, replaying, since, afterId, pages[0]);
     turn.end.None? ==>
       var last := Last(turn.ack.value);
       Orderly(s, replaying, last.OccurredAt(), last.id, pages[0].table, Max(floor, last.t), pages[1..]))
  }

  function StartOf(p: Process, path: Path): Time {
    if p.settings.replay && path !in p.replayed then p.settings.since else CursorOf(p.cursors, path)
  }

  ghost predicate Admissible(w: World, e: Event) {
    match e
    case Change(path, table) => Arrivals(TableOf(w, path), table, Floor(w, path))
    case VisitDb(path, env) =>
      w.process.Some? && env.opens ==>
        var p := w.process.value;
        var replaying := p.settings.replay && path !in p.replayed;
        Orderly(p.settings, replaying, StartOf(p, path), NO_ID, TableOf(w, path), Floor(w, path), env.pages)
    case _ => true
  }

  ghost predicate AdmissibleRun(w: World, events: seq<Event>)
    decreases |events|
  {
    events == [] || (Admissible(w, events[0]) && AdmissibleRun(Step(w, events[0]), events[1..]))
  }

  // ------------------------------------------------------------------ one pass

  lemma DeliveredGrows(log: seq<Delivery>, more: seq<Delivery>, path: Path, r: Row)
    requires Delivered(log, path, r)
    ensures Delivered(log + more, path, r)
  {
    var i :| 0 <= i < |log| && log[i].Batch? && log[i].path == path && r in log[i].rows;
    assert (log + more)[i] == log[i];
  }

  lemma {:induction false} InSomeBatch(acks: seq<seq<Row>>, r: Row) returns (i: nat)
    requires r in Concat(acks)
    ensures i < |acks| && r in acks[i]
  {
    if r in acks[0] { return 0; }
    var j := InSomeBatch(acks[1..], r);
    return j + 1;
  }

  /** Acknowledged batches of a visit are delivered in its log. */
  lemma VisitDelivers(p: Process, file: StateFile, path: Path, env: VisitEnv, log: seq<Delivery>, r: Row)
    requires r in Concat(PassOf(p, path, env).acks)
    ensures Delivered(log + VisitProcess(p, file, path, env).deliveries, path, r)
  {
    var pass := PassOf(p, path, env);
    var i := InSomeBatch(pass.acks, r);
    var all := log + VisitProcess(p, file, path, env).deliveries;
    assert all[|log| + i] == Batch(path, pass.acks[i]);
  }

  /** The rest of an orderly visit is orderly. */
  lemma OrderlyGoesOn(s: Settings, replaying: bool, since: Time, afterId: Id, before: Table, floor: int,
      pages: seq<Page>, rows: seq<Row>)
    requires pages != [] && rows != [] && TakeTurn(s, replaying, since, afterId, pages[0]) == Turn(Some(rows), None)
    requires Orderly(s, replaying, since, afterId, before, floor, pages)
    ensures var last := Last(rows);
            Orderly(s, replaying, last.OccurredAt(), last.id, pages[0].table, Max(floor, last.t), pages[1..])
  {
  }

  /** Rows seen at the end of a visit and not above the floor were there before it. */
  lemma {:induction false} OldRowsWereThere(s: Settings, replaying: bool, since: Time, afterId: Id, before: Table,
      floor: int, pages: seq<Page>, r: Row)
    requires Orderly(s, replaying, since, afterId, before, floor, pages)
    requires r in LastSeen(before, pages, Loop(s, replaying, since, afterId, pages).pages) && r.tokens && r.t <= floor
    ensures r in before
    decreases |pages|
  {
    if pages != [] {
      var turn := TakeTurn(s, replaying, since, afterId, pages[0]);
      if turn.end.None? {
        var rows, last := turn.ack.value, Last(turn.ack.value);
        LoopGoesOn(s, replaying, since, afterId, pages, rows);
        OrderlyGoesOn(s, replaying, since, afterId, before, floor, pages, rows);
        LastSeenLater(before, pages, Loop(s, replaying, last.OccurredAt(), last.id, pages[1..]).pages);
        OldRowsWereThere(s, replaying, last.OccurredAt(), last.id, pages[0].table, Max(floor, last.t), pages[1..], r);
      } else {
        LoopStops(s, replaying, since, afterId, pages);
      }
    }
  }

  lemma LastSeenLater(before: Table, pages: seq<Page>, seen: nat)
    requires pages != [] && seen <= |pages[1..]|
    ensures LastSeen(before, pages, 1 + seen) == LastSeen(pages[0].table, pages[1..], seen)
  {
  }

  /** A completed replay pass has delivered every usage row of the window that its last page could see. */
  lemma {:induction false} DrainedCovers(s: Settings, since: Time, afterId: Id, before: Table, floor: int,
      pages: seq<Page>, r: Row)
    requires Orderly(s, true, since, afterId, before, floor, pages)
    requires Loop(s, true, since, afterId, pages).end.Drained()
    requires r in LastSeen(before, pages, Loop(s, true, since, afterId, pages).pages)
    requires r.tokens && PastFrontier(r, since, afterId) && WithinBound(r, UntilMilli(s.until))
    ensures r in Concat(Loop(s, true, since, afterId, pages).acks)
    decreases |pages|
  {
    var turn := TakeTurn(s, true, since, afterId, pages[0]);
    if turn.end.None? {
      var rows, last := turn.ack.value, Last(turn.ack.value);
      LoopGoesOn(s, true, since, afterId, pages, rows);
      OrderlyGoesOn(s, true, since, afterId, before, floor, pages, rows);
      LastSeenLater(before, pages, Loop(s, true, last.OccurredAt(), last.id, pages[1..]).pages);
      if PastFrontier(r, last.OccurredAt(), last.id) {
        DrainedCovers(s, last.OccurredAt(), last.id, pages[0].table, Max(floor, last.t), pages[1..], r);
      } else {
        MilliBoundsAreExact(last.t, 0);
        OldRowsWereThere(s, true, last.OccurredAt(), last.id, pages[0].table, Max(floor, last.t), pages[1..], r);
        RowOfFullPage(s, since, afterId, pages[0], r);
      }
    } else {
      LoopStops(s, true, since, afterId, pages);
      TurnSendsFirst(s, since, afterId, pages[0]);
      SortedFacts(Pending(pages[0].table, since, s.until, afterId));
    }
  }

  // ------------------------------------------------------------------ one poll

  ghost function Missed(table: Table, cursor: Time, log: seq<Delivery>, path: Path): set<Row> {
    set r | r in table && r.tokens && UnixMilli(ZERO_TIME) < r.t <= UnixMilli(cursor) && !Delivered(log, path, r)
  }

  /** The usage rows past a page that share the timestamp of its last row and are not acknowledged. */
  ghost function SplitOff(table: Table, rows: seq<Row>, log: seq<Delivery>, path: Path): set<Row>
    requires rows != []
  {
    set r | r in table && r.tokens && UnixMilli(ZERO_TIME) < r.t == Last(rows).t && r !in rows
        && !Delivered(log, path, r)
  }

  lemma PolledPage(s: Settings, cursor: Time, pages: seq<Page>)
    requires Loop(s, false, cursor, NO_ID, pages).end.Polled?
    ensures pages != []
    ensures var pass := Loop(s, false, cursor, NO_ID, pages);
            var rows := First(Unread(pages[0].table, cursor), s.limit);
            rows != [] && pass.acks == [rows] && pass.end.last == Last(rows).OccurredAt() && pass.pages == 1
  {
    UnboundedWindowIsPlainRead(pages[0].table, cursor, NO_ID, s.limit);
    WindowPage(pages[0].table, cursor, ZERO_TIME, NO_ID, s.limit);
    LoopStops(s, false, cursor, NO_ID, pages);
  }

  /** The exact loss of a poll: what is unacknowledged at or below the new cursor is what was so at the old one, and
      the rows its page splits off. */
  lemma ExactLoss(table: Table, cursor: Time, limit: PageLimit, log: seq<Delivery>, log': seq<Delivery>, path: Path)
    requires var rows := First(Unread(table, cursor), limit);
             rows != [] && forall r :: Delivered(log', path, r) <==> Delivered(log, path, r) || r in rows
    ensures var rows := First(Unread(table, cursor), limit);
            Missed(table, Last(rows).OccurredAt(), log', path)
                == Missed(table, cursor, log, path) + SplitOff(table, rows, log, path)
  {
    var q := Unread(table, cursor);
    var rows := First(q, limit);
    var k := |rows|;
    SortedFacts(Pending(table, cursor, ZERO_TIME, NO_ID));
    OrderedSplit(q, k);
    assert rows == q[..k] && Last(rows) == q[k - 1] && q[k - 1] in q;
    MilliBoundsAreExact(Last(rows).t, cursor);
    forall r
      ensures r in Missed(table, Last(rows).OccurredAt(), log', path)
         <==> r in Missed(table, cursor, log, path) || r in SplitOff(table, rows, log, path)
    {
      if r in rows { assert r in q; }
      if r in table && r.tokens && r.t > UnixMilli(cursor) && r !in rows {
        assert r in q && Before(q[k - 1], r);
      }
    }
  }

  /** What a poll delivers is its page. */
  lemma PollLog(p: Process, file: StateFile, path: Path, env: VisitEnv, log: seq<Delivery>, r: Row)
    requires PassOf(p, path, env).end.Polled? && PassOf(p, path, env).acks != []
    ensures Delivered(log + VisitProcess(p, file, path, env).deliveries, path, r)
       <==> Delivered(log, path, r) || r in PassOf(p, path, env).acks[0]
  {
    var pass := PassOf(p, path, env);
    var c := CursorOf(p.cursors, path);
    OnlyPollsPoll(p, path, env);
    PolledPage(p.settings, c, env.pages);
    var all := log + VisitProcess(p, file, path, env).deliveries;
    assert VisitProcess(p, file, path, env).deliveries == [Batch(path, pass.acks[0])];
    if Delivered(log, path, r) { DeliveredGrows(log, VisitProcess(p, file, path, env).deliveries, path, r); }
    if r in pass.acks[0] { assert all[|log|] == Batch(path, pass.acks[0]); }
    if Delivered(all, path, r) && r !in pass.acks[0] {
      var i :| 0 <= i < |all| && all[i].Batch? && all[i].path == path && r in all[i].rows;
      assert i < |log| && log[i] == all[i];
    }
  }

  lemma OnlyPollsPoll(p: Process, path: Path, env: VisitEnv)
    requires PassOf(p, path, env).end.Polled?
    ensures env.opens && !(p.settings.replay && path !in p.replayed)
    ensures PassOf(p, path, env) == Loop(p.settings, false, CursorOf(p.cursors, path), NO_ID, env.pages)
  {
    NotAPoll(p.settings, p.settings.since, NO_ID, env.pages);
  }

  /** ExactLoss of a visit that polls. */
  lemma PollLoses(p: Process, file: StateFile, path: Path, env: VisitEnv, log: seq<Delivery>)
    requires PassOf(p, path, env).end.Polled?
    ensures env.pages != [] && PassOf(p, path, env).acks != []
    ensures var pass, table := PassOf(p, path, env), env.pages[0].table;
            Missed(table, pass.end.last, log + VisitProcess(p, file, path, env).deliveries, path)
                == Missed(table, CursorOf(p.cursors, path), log, path) + SplitOff(table, pass.acks[0], log, path)
  {
    var pass := PassOf(p, path, env);
    var c := CursorOf(p.cursors, path);
    OnlyPollsPoll(p, path, env);
    PolledPage(p.settings, c, env.pages);
    var log' := log + VisitProcess(p, file, path, env).deliveries;
    forall r ensures Delivered(log', path, r) <==> Delivered(log, path, r) || r in pass.acks[0] {
      PollLog(p, file, path, env, log, r);
    }
    ExactLoss(env.pages[0].table, c, p.settings.limit, log, log', path);
  }

  /** A poll leaves no gap at its new cursor if and only if there was none at the old one and its page splits off no
      unacknowledged tied row. */
  lemma PollIsGapFreeExactly(p: Process, file: StateFile, path: Path, env: VisitEnv, log: seq<Delivery>)
    requires PassOf(p, path, env).end.Polled?
    ensures env.pages != [] && PassOf(p, path, env).acks != []
    ensures Covered(env.pages[0].table, PassOf(p, path, env).end.last,
        log + VisitProcess(p, file, path, env).deliveries, path, {})
       <==> Covered(env.pages[0].table, CursorOf(p.cursors, path), log, path, {})
            && SplitOff(env.pages[0].table, PassOf(p, path, env).acks[0], log, path) == {}
  {
    var pass := PassOf(p, path, env);
    PollLoses(p, file, path, env, log);
    CoveredIsNoneMissed(env.pages[0].table, CursorOf(p.cursors, path), log, path);
    CoveredIsNoneMissed(env.pages[0].table, pass.end.last, log + VisitProcess(p, file, path, env).deliveries, path);
  }

  lemma CoveredIsNoneMissed(table: Table, cursor: Time, log: seq<Delivery>, path: Path)
    ensures Covered(table, cursor, log, path, {}) <==> Missed(table, cursor, log, path) == {}
  {
    if Covered(table, cursor, log, path, {}) {
      forall r ensures r !in Missed(table, cursor, log, path) { }
    } else {
      var r :| r in table && r.tokens && UnixMilli(ZERO_TIME) < r.t <= UnixMilli(cursor) && !Delivered(log, path, r);
      assert r in Missed(table, cursor, log, path);
    }
  }

  const TIED_A := Row([97], 5, true, true)
  const TIED_B := Row([98], 5, true, true)
  const TIED: Table := {TIED_A, TIED_B}

  lemma TiedListing(cursor: Time)
    requires UnixMilli(cursor) < 5
    ensures Unread(TIED, cursor) == [TIED_A, TIED_B]
  {
    assert Pending(TIED, cursor, ZERO_TIME, NO_ID) == TIED;
    SortedFacts(TIED);
    assert IdLess([97], [98]);
    OrderedIsUnique(Unread(TIED, cursor), [TIED_A, TIED_B]);
  }

  /** "No records are skipped or lost" fails on two rows with the same timestamp and a page limit of one: no run of a
      polling process, however long and whatever else happens in it, delivers the second. */
  lemma PollingLosesTiedRow(w: World, events: seq<Event>, path: Path)
    requires Polls(w, path) && LivesThrough(w, events) && PollsSee(events, path, TIED)
    requires w.process.value.settings.limit == 1 && UnixMilli(CursorIn(w, path)) < 5
    ensures TIED_B in RowsTo(Run(w, events).log, path) ==> TIED_B in RowsTo(w.log, path)
  {
    var c, n := CursorIn(w, path), WorkingPolls(events, path);
    PollsArePaged(w, events, path, TIED);
    if n > 0 {
      TiedListing(c);
      PagedIsUnread(TIED, TIED_A.OccurredAt(), 1, n - 1);
      SortedFacts(Pending(TIED, TIED_A.OccurredAt(), ZERO_TIME, NO_ID));
      assert Paged(TIED, c, 1, n) == [TIED_A, TIED_B][..1] + Paged(TIED, TIED_A.OccurredAt(), 1, n - 1);
    }
  }

  // ------------------------------------------------------------------ whole runs

  /** What an event adds to the losses: the unacknowledged rows that the page of a poll splits off. */
  ghost function Losses(w: World, e: Event): set<Loss> {
    if e.VisitDb? && w.process.Some? then
      var pass := PassOf(w.process.value, e.path, e.env);
      if pass.end.Polled? && e.env.pages != [] && pass.acks != [] && pass.acks[0] != [] then
        set r | r in SplitOff(e.env.pages[0].table, pass.acks[0], w.log, e.path) :: Loss(e.path, r)
      else {}
    else {}
  }

  ghost function RunLosses(w: World, events: seq<Event>): set<Loss>
    decreases |events|
  {
    if events == [] then {} else Losses(w, events[0]) + RunLosses(Step(w, events[0]), events[1..])
  }

  lemma CoverLasts(before: Table, after: Table, floor: int, cursor: Time, log: seq<Delivery>, more: seq<Delivery>,
      path: Path, lost: set<Loss>, lost': set<Loss>)
    requires Covered(before, cursor, log, path, lost) && UnixMilli(cursor) <= floor && lost <= lost'
    requires forall r | r in after && r.tokens && r.t <= floor :: r in before
    ensures Covered(after, cursor, log + more, path, lost')
  {
    forall r | r in after && r.tokens && UnixMilli(ZERO_TIME) < r.t <= UnixMilli(cursor)
        ensures Delivered(log + more, path, r) || Loss(path, r) in lost' {
      if Delivered(log, path, r) { DeliveredGrows(log, more, path, r); }
    }
  }

  lemma CoverLowers(table: Table, cursor: Time, lower: Time, log: seq<Delivery>, path: Path, lost: set<Loss>)
    requires Covered(table, cursor, log, path, lost) && lower <= cursor
    ensures Covered(table, lower, log, path, lost)
  {
    UnixMilliMonotone(lower, cursor);
  }

  /** The visited database stays covered at the cursors it had. */
  lemma VisitKeepsOldCursors(w: World, path: Path, env: VisitEnv, cursor: Time, lost: set<Loss>, lost': set<Loss>)
    requires w.process.Some? && Admissible(w, VisitDb(path, env)) && lost <= lost'
    requires Covered(TableOf(w, path), cursor, w.log, path, lost) && UnixMilli(cursor) <= Floor(w, path)
    ensures var w' := Step(w, VisitDb(path, env)); Covered(TableOf(w', path), cursor, w'.log, path, lost')
  {
    var p := w.process.value;
    var v := VisitProcess(p, w.file, path, env);
    var pass := PassOf(p, path, env);
    var after := LastSeen(TableOf(w, path), env.pages, pass.pages);
    var replaying := p.settings.replay && path !in p.replayed;
    forall r | r in after && r.tokens && r.t <= Floor(w, path) ensures r in TableOf(w, path) {
      if env.opens {
        var before, floor := TableOf(w, path), Floor(w, path);
        OldRowsWereThere(p.settings, replaying, StartOf(p, path), NO_ID, before, floor, env.pages, r);
      }
    }
    CoverLasts(TableOf(w, path), after, Floor(w, path), cursor, w.log, v.deliveries, path, lost, lost');
  }

  /** A completed replay pass covers its completion cursor. */
  lemma CompletionIsCovered(w: World, path: Path, env: VisitEnv, lost: set<Loss>, lost': set<Loss>)
    requires w.process.Some? && Admissible(w, VisitDb(path, env)) && GapFreeUpTo(w, lost) && lost <= lost'
    requires PassOf(w.process.value, path, env).end.Drained()
    ensures var p := w.process.value;
            var w' := Step(w, VisitDb(path, env));
            Covered(TableOf(w', path), CompletionCursor(p.settings, CursorOf(p.cursors, path),
                PassOf(p, path, env).end.frontier), w'.log, path, lost')
  {
    var p := w.process.value;
    var s, c := p.settings, CursorOf(p.cursors, path);
    var pass := PassOf(p, path, env);
    var w' := Step(w, VisitDb(path, env));
    var final := CompletionCursor(s, c, pass.end.frontier);
    OnlyReplaysDrain(p, path, env);
    VisitKeepsOldCursors(w, path, env, c, lost, lost');
    forall r | r in TableOf(w', path) && r.tokens && UnixMilli(ZERO_TIME) < r.t <= UnixMilli(final)
      ensures Delivered(w'.log, path, r) || Loss(path, r) in lost'
    {
      if r.t > UnixMilli(c) {
        UnixMilliMonotone(s.since, c);
        if !IsZero(s.until) { UnixMilliMonotone(final, s.until); }
        DrainedCovers(s, s.since, NO_ID, TableOf(w, path), Floor(w, path), env.pages, r);
        VisitDelivers(p, w.file, path, env, w.log, r);
      }
    }
  }

  lemma OnlyReplaysDrain(p: Process, path: Path, env: VisitEnv)
    requires PassOf(p, path, env).end.Drained()
    ensures env.opens && p.settings.replay && path !in p.replayed
    ensures PassOf(p, path, env) == Loop(p.settings, true, p.settings.since, NO_ID, env.pages)
  {
  }

  /** After a visit, the visited database is covered at its cursor in memory. */
  lemma VisitCoversMemory(w: World, path: Path, env: VisitEnv, lost: set<Loss>)
    requires w.process.Some? && Admissible(w, VisitDb(path, env)) && GapFreeUpTo(w, lost)
    requires Step(w, VisitDb(path, env)).process.Some?
    ensures var w' := Step(w, VisitDb(path, env));
            Covered(TableOf(w', path), CursorOf(w'.process.value.cursors, path), w'.log, path,
                lost + Losses(w, VisitDb(path, env)))
  {
    var p := w.process.value;
    var c := CursorOf(p.cursors, path);
    var pass := PassOf(p, path, env);
    var w' := Step(w, VisitDb(path, env));
    var lost' := lost + Losses(w, VisitDb(path, env));
    VisitKeepsOldCursors(w, path, env, c, lost, lost');
    if pass.end.Polled? {
      PollCovers(w, path, env, lost);
    } else if pass.end.Drained() {
      CompletionIsCovered(w, path, env, lost, lost');
    } else if pass.end.SendFailed? {
      CoverLowers(TableOf(w', path), c, RewindCursor(p.settings, c), w'.log, path, lost');
    }
  }

  lemma PollCovers(w: World, path: Path, env: VisitEnv, lost: set<Loss>)
    requires w.process.Some? && Admissible(w, VisitDb(path, env)) && GapFreeUpTo(w, lost)
    requires PassOf(w.process.value, path, env).end.Polled?
    ensures var w' := Step(w, VisitDb(path, env));
            Covered(TableOf(w', path), PassOf(w.process.value, path, env).end.last, w'.log, path,
                lost + Losses(w, VisitDb(path, env)))
  {
    var p := w.process.value;
    var c := CursorOf(p.cursors, path);
    var w' := Step(w, VisitDb(path, env));
    var last := PassOf(p, path, env).end.last;
    OnlyPollsPoll(p, path, env);
    PolledPage(p.settings, c, env.pages);
    PollLoses(p, w.file, path, env, w.log);
    var table := env.pages[0].table;
    forall r | r in table && r.tokens && UnixMilli(ZERO_TIME) < r.t <= UnixMilli(last) && !Delivered(w'.log, path, r)
      ensures Loss(path, r) in lost + Losses(w, VisitDb(path, env))
    {
      assert r in Missed(table, last, w'.log, path);
      if r in Missed(table, c, w.log, path) {
        OldRowsWereThere(p.settings, false, c, NO_ID, TableOf(w, path), Floor(w, path), env.pages, r);
      }
    }
  }

  /** A visit leaves no gap at either cursor of any database, visited or not, beyond what its page splits off. */
  lemma VisitKeepsGapFree(w: World, path: Path, env: VisitEnv, lost: set<Loss>)
    requires w.process.Some? && Admissible(w, VisitDb(path, env)) && GapFreeUpTo(w, lost)
    ensures GapFreeUpTo(Step(w, VisitDb(path, env)), lost + Losses(w, VisitDb(path, env)))
  {
    var p := w.process.value;
    var w' := Step(w, VisitDb(path, env));
    var v := VisitProcess(p, w.file, path, env);
    var write := CursorWrite(p.settings, CursorOf(p.cursors, path), path in p.replayed, PassOf(p, path, env).end);
    var lost' := lost + Losses(w, VisitDb(path, env));
    VisitKeepsOldCursors(w, path, env, FileCursor(w.file, path), lost, lost');
    if w'.process.Some? { VisitCoversMemory(w, path, env, lost); }
    forall q
      ensures w'.process.Some? ==> Covered(TableOf(w', q), CursorOf(w'.process.value.cursors, q), w'.log, q, lost')
    {
      if q != path {
        var cursor := CursorOf(p.cursors, q);
        CoverLasts(TableOf(w, q), TableOf(w', q), Floor(w, q), cursor, w.log, v.deliveries, q, lost, lost');
      }
    }
    forall q ensures Covered(TableOf(w', q), FileCursor(w'.file, q), w'.log, q, lost') {
      if q != path {
        var cursor := FileCursor(w.file, q);
        CoverLasts(TableOf(w, q), TableOf(w', q), Floor(w, q), cursor, w.log, v.deliveries, q, lost, lost');
      }
      if write.Some? { SaveNeverInvents(w.file, w'.process.value.cursors, env.save, q); }
    }
  }

  lemma StepKeepsGapFree(w: World, e: Event, lost: set<Loss>)
    requires GapFreeUpTo(w, lost) && Admissible(w, e)
    ensures GapFreeUpTo(Step(w, e), lost + Losses(w, e))
  {
    match e {
      case Start(config, now, boot) =>
      case Seed(paths, at) =>
      case Crash =>
      case VisitDb(path, env) => if w.process.Some? { VisitKeepsGapFree(w, path, env, lost); }
      case Change(path, table) =>
        CoverLasts(TableOf(w, path), table, Floor(w, path), FileCursor(w.file, path), w.log, [], path, lost, lost);
        if w.process.Some? {
          CoverLasts(TableOf(w, path), table, Floor(w, path), CursorOf(w.process.value.cursors, path), w.log, [],
              path, lost, lost);
        }
        assert w.log + [] == w.log;
    }
  }

  lemma {:induction false} RunKeepsGapFree(w: World, events: seq<Event>, lost: set<Loss>)
    requires GapFreeUpTo(w, lost) && AdmissibleRun(w, events)
    ensures GapFreeUpTo(Run(w, events), lost + RunLosses(w, events))
    decreases |events|
  {
    if events == [] {
      assert lost + {} == lost;
    } else {
      var first, rest := Losses(w, events[0]), RunLosses(Step(w, events[0]), events[1..]);
      StepKeepsGapFree(w, events[0], lost);
      RunKeepsGapFree(Step(w, events[0]), events[1..], lost + first);
      assert lost + first + rest == lost + (first + rest);
    }
  }

  /** From nothing: whatever processes, settings, failures, saves, crashes and restarts follow, if rows arrive above
      the cursors then every unacknowledged row at or below a cursor was split off by a poll of the run. */
  lemma EveryGapIsASplit(events: seq<Event>)
    requires AdmissibleRun(FRESH_WORLD, events)
    ensures GapFreeUpTo(Run(FRESH_WORLD, events), RunLosses(FRESH_WORLD, events))
  {
    RunKeepsGapFree(FRESH_WORLD, events, {});
    assert {} + RunLosses(FRESH_WORLD, events) == RunLosses(FRESH_WORLD, events);
  }

  /** Every loss is a real gap: right after the poll, the row is in the table, at or below the cursor in memory, and
      not acknowledged. */
  lemma EveryLossIsAGap(w: World, path: Path, env: VisitEnv, r: Row)
    requires Loss(path, r) in Losses(w, VisitDb(path, env))
    ensures var w' := Step(w, VisitDb(path, env));
            w'.process.Some?
            && r in Missed(TableOf(w', path), CursorOf(w'.process.value.cursors, path), w'.log, path)
  {
    var p := w.process.value;
    OnlyPollsPoll(p, path, env);
    PolledPage(p.settings, CursorOf(p.cursors, path), env.pages);
    PollLoses(p, w.file, path, env, w.log);
  }

  ghost predicate AlwaysGapFree(w: World, events: seq<Event>)
    decreases |events|
  {
    GapFree(w) && (events == [] || AlwaysGapFree(Step(w, events[0]), events[1..]))
  }

  lemma {:induction false} AlwaysGapFreeExactly(w: World, events: seq<Event>)
    requires GapFree(w) && AdmissibleRun(w, events)
    ensures AlwaysGapFree(w, events) <==> RunLosses(w, events) == {}
    decreases |events|
  {
    if events != [] {
      var e, w' := events[0], Step(w, events[0]);
      if Losses(w, e) == {} {
        StepKeepsGapFree(w, e, {});
        AlwaysGapFreeExactly(w', events[1..]);
      } else {
        var loss :| loss in Losses(w, e);
        EveryLossIsAGap(w, e.path, e.env, loss.row);
        CoveredIsNoneMissed(TableOf(w', e.path), CursorOf(w'.process.value.cursors, e.path), w'.log, e.path);
        assert loss in RunLosses(w, events);
      }
    }
  }

  /** From nothing, with rows arriving above the cursors: no state of a run has a gap if and only if none of its polls
      splits an unacknowledged tie. */
  lemma NoGapExactly(events: seq<Event>)
    requires AdmissibleRun(FRESH_WORLD, events)
    ensures AlwaysGapFree(FRESH_WORLD, events) <==> RunLosses(FRESH_WORLD, events) == {}
  {
    AlwaysGapFreeExactly(FRESH_WORLD, events);
  }

  predicate NoTies(table: Table) {
    forall a, b | a in table && b in table && a.tokens && b.tokens && a.t == b.t :: a == b
  }

  /** No page that a poll of the run delivers comes from a table with two usage rows of one timestamp. */
  predicate PollsMeetNoTies(w: World, events: seq<Event>)
    decreases |events|
  {
    events == [] ||
    var e := events[0];
    && (e.VisitDb? && w.process.Some? && e.env.pages != [] && PassOf(w.process.value, e.path, e.env).end.Polled?
        ==> NoTies(e.env.pages[0].table))
    && PollsMeetNoTies(Step(w, e), events[1..])
  }

  /** Where no poll meets two usage rows with one timestamp, nothing is lost. */
  lemma {:induction false} DistinctTimesLoseNothing(w: World, events: seq<Event>)
    requires PollsMeetNoTies(w, events)
    ensures RunLosses(w, events) == {}
    decreases |events|
  {
    if events != [] {
      var e := events[0];
      if e.VisitDb? && w.process.Some? && PassOf(w.process.value, e.path, e.env).end.Polled? {
        OnlyPollsPoll(w.process.value, e.path, e.env);
        PolledPage(w.process.value.settings, CursorOf(w.process.value.cursors, e.path), e.env.pages);
        PollSplitsNothing(w.process.value, e.path, e.env, w.log);
      }
      DistinctTimesLoseNothing(Step(w, e), events[1..]);
    }
  }

  lemma PollSplitsNothing(p: Process, path: Path, env: VisitEnv, log: seq<Delivery>)
    requires PassOf(p, path, env).end.Polled? && env.pages != [] && NoTies(env.pages[0].table)
    ensures PassOf(p, path, env).acks != [] && PassOf(p, path, env).acks[0] != []
    ensures SplitOff(env.pages[0].table, PassOf(p, path, env).acks[0], log, path) == {}
  {
    OnlyPollsPoll(p, path, env);
    PolledPage(p.settings, CursorOf(p.cursors, path), env.pages);
    SortedFacts(Pending(env.pages[0].table, CursorOf(p.cursors, path), ZERO_TIME, NO_ID));
    var rows := PassOf(p, path, env).acks[0];
    assert Last(rows) in Unread(env.pages[0].table, CursorOf(p.cursors, path));
  }

  // ------------------------------------------------------------------ idle means delivered

  /** A visit that finds no rows is a poll of a table without usage rows above the cursor. */
  lemma IdleSeesNothingNew(p: Process, path: Path, env: VisitEnv)
    requires PassOf(p, path, env).end.Idle?
    ensures env.pages != [] && PassOf(p, path, env).pages == 1
    ensures forall r | r in env.pages[0].table && r.tokens :: r.t <= UnixMilli(CursorOf(p.cursors, path))
  {
    var s, c := p.settings, CursorOf(p.cursors, path);
    NotAPoll(s, s.since, NO_ID, env.pages);
    LoopStops(s, false, c, NO_ID, env.pages);
    PollRead(env.pages[0].table, c, s.limit);
    SortedFacts(Pending(env.pages[0].table, c, ZERO_TIME, NO_ID));
    forall r | r in env.pages[0].table && r.tokens ensures r.t <= UnixMilli(c) {
      assert r in Unread(env.pages[0].table, c) ==> r.t > UnixMilli(c);
    }
  }

  /** In a gap-free state, a poll that finds no rows means that every usage row of the table it saw is acknowledged. */
  lemma IdleMeansDelivered(w: World, path: Path, env: VisitEnv, lost: set<Loss>)
    requires w.process.Some? && Admissible(w, VisitDb(path, env)) && GapFreeUpTo(w, lost)
    requires PassOf(w.process.value, path, env).end.Idle?
    ensures env.pages != []
    ensures forall r | r in env.pages[0].table && r.tokens && r.t > UnixMilli(ZERO_TIME) ::
              Delivered(Step(w, VisitDb(path, env)).log, path, r) || Loss(path, r) in lost
  {
    var w' := Step(w, VisitDb(path, env));
    IdleSeesNothingNew(w.process.value, path, env);
    VisitCoversMemory(w, path, env, lost);
    assert Losses(w, VisitDb(path, env)) == {} && lost + {} == lost;
    assert TableOf(w', path) == env.pages[0].table;
  }

  /** In every run from nothing with rows arriving above the cursors: when a poll finds no rows, every usage row of its
      table has been acknowledged, or some poll of the run split it off. */
  lemma IdleRunHasDelivered(events: seq<Event>, path: Path, env: VisitEnv)
    requires var w := Run(FRESH_WORLD, events);
             && AdmissibleRun(FRESH_WORLD, events) && Admissible(w, VisitDb(path, env))
             && w.process.Some? && PassOf(w.process.value, path, env).end.Idle?
    ensures env.pages != []
    ensures forall r | r in env.pages[0].table && r.tokens && r.t > UnixMilli(ZERO_TIME) ::
              Delivered(Step(Run(FRESH_WORLD, events), VisitDb(path, env)).log, path, r)
              || Loss(path, r) in RunLosses(FRESH_WORLD, events)
  {
    EveryGapIsASplit(events);
    IdleMeansDelivered(Run(FRESH_WORLD, events), path, env, RunLosses(FRESH_WORLD, events));
  }
}
