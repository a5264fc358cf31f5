/** What a replay pass may do to the stored cursor. */
module Cursors {
  import opened Clock
  import opened Rows
  import opened Reader
  import opened State
  import opened Protocol
  import opened Paging
  import opened Runs

  /** A replay visit writes at most once, at its end: not at all when the database does not open, a read fails
      or the process dies; the rewound cursor when a send fails; and on completion a cursor that never falls
      below the stored one, never passes `until`, and stays put when the window starts after it. */
  lemma ReplayWritesOnce(p: Process, file: StateFile, path: Path, env: VisitEnv)
    requires p.settings.replay && path !in p.replayed
    ensures var c := CursorOf(p.cursors, path);
            var end := PassOf(p, path, env).end;
            var v := VisitProcess(p, file, path, env);
            var write := CursorWrite(p.settings, c, false, end);
            && (write.None? ==> (end.Died? || end.OpenFailed? || end.ReadFailed?) && v.file == file
                                && (v.process.Some? ==> v.process.value.cursors == p.cursors))
            && (write.Some? ==> (end.SendFailed? || end.Drained()) && v.process.Some?
                                && v.process.value.cursors == p.cursors[path := write.value]
                                && v.file == AfterSave(file, p.cursors[path := write.value], env.save))
            && (end.SendFailed? ==> write.value == Min(p.settings.since, c))
            && (end.Drained() ==> c <= write.value <= Max(c, end.frontier)
                                  && (!IsZero(p.settings.until) ==> write.value <= Max(c, p.settings.until))
                                  && (p.settings.since > c ==> write.value == c))
  {
    NotAPoll(p.settings, p.settings.since, NO_ID, env.pages);
  }

  lemma {:induction false} NotAPoll(s: Settings, since: Time, afterId: Id, pages: seq<Page>)
    ensures var end := Loop(s, true, since, afterId, pages).end; !end.Polled? && !end.Idle? && !end.OpenFailed?
    decreases |pages|
  {
    if pages != [] {
      var turn := TakeTurn(s, true, since, afterId, pages[0]);
      if turn.end.None? { NotAPoll(s, Last(turn.ack.value).OccurredAt(), Last(turn.ack.value).id, pages[1..]); }
    }
  }

  /** Under any interference, and unless the bound vanishes, clamping to `until` changes no completion cursor:
      the window already ends there. */
  lemma UntilClampIsNoOp(s: Settings, cursor: Time, pages: seq<Page>)
    requires Loop(s, true, s.since, NO_ID, pages).end.Drained() && !BoundVanishes(s.until)
    ensures var f := Loop(s, true, s.since, NO_ID, pages).end.frontier;
            CompletionCursor(s, cursor, f) == if s.since > cursor then cursor else Max(cursor, f)
  {
    var pass := Loop(s, true, s.since, NO_ID, pages);
    FrontierIsLastSent(s, s.since, NO_ID, pages);
    SentInOrder(s, s.since, NO_ID, pages);
    if Concat(pass.acks) != [] {
      var last := Last(Concat(pass.acks));
      assert last in Concat(pass.acks);
      MilliBoundsAreExact(last.t, s.until);
    }
  }

  // ------------------------------------------------------------------ passes that break off

  /** A replay visit over a quiet table whose first `k` pages work and hold the first `m` rows of the window. */
  predicate ReachesPage(w: World, path: Path, env: VisitEnv, table: Table, k: nat, m: nat) {
    && Replays(w, path) && env.opens && (k < |env.pages| ==> env.pages[k].table == table)
    && var s := w.process.value.settings; FullPagesWork(env.pages, k, table, Window(s, table), m, s.limit)
  }

  /** The window's rows from the `m`-th on, as far as the next page would hold them. */
  function NextRows(w: World, table: Table, m: nat): seq<Row>
    requires w.process.Some? && m <= |Window(w.process.value.settings, table)|
  {
    First(Window(w.process.value.settings, table)[m..], w.process.value.settings.limit)
  }

  lemma ReachedPass(w: World, path: Path, env: VisitEnv, table: Table, k: nat, m: nat)
    requires ReachesPage(w, path, env, table, k, m)
    ensures var s, pass := w.process.value.settings, PassOf(w.process.value, path, env);
            BreaksOff(Concat(pass.acks), pass.end, PageAt(env.pages, k), Window(s, table), m, s.limit)
  {
    var s := w.process.value.settings;
    PassBreaksOff(s, s.since, NO_ID, table, env.pages, k, Window(s, table), m);
  }

  /** Whichever send of a replay pass is the first to fail, the cursor is rewound to the replay start, or kept where the
      replay starts after it; and the rewound cursor is saved. */
  lemma FailedSendRewinds(w: World, path: Path, env: VisitEnv, table: Table, k: nat, m: nat)
    requires ReachesPage(w, path, env, table, k, m) && k < |env.pages|
    requires env.pages[k].readOk && !env.pages[k].sendOk
    requires m < |Window(w.process.value.settings, table)| && Decodes(NextRows(w, table, m))
    ensures var s, c, w' := w.process.value.settings, CursorIn(w, path), Step(w, VisitDb(path, env));
            && Replays(w', path) && w'.process.value.settings == s
            && CursorIn(w', path) == Min(s.since, c)
            && w'.file == AfterSave(w.file, w.process.value.cursors[path := Min(s.since, c)], env.save)
            && RowsTo(w'.log, path) == RowsTo(w.log, path) + Window(s, table)[..m]
  {
    ReachedPass(w, path, env, table, k, m);
    VisitFile(w.process.value, w.file, path, env);
    VisitActs(w, path, env);
  }

  /** A read that fails, also on a row that does not decode, ends the pass without touching a cursor. */
  lemma FailedReadKeeps(w: World, path: Path, env: VisitEnv, table: Table, k: nat, m: nat)
    requires ReachesPage(w, path, env, table, k, m) && k < |env.pages|
    requires !env.pages[k].readOk || !Decodes(NextRows(w, table, m))
    ensures var s, w' := w.process.value.settings, Step(w, VisitDb(path, env));
            && Replays(w', path) && w'.process.value.settings == s
            && w'.process.value.cursors == w.process.value.cursors && w'.file == w.file
            && RowsTo(w'.log, path) == RowsTo(w.log, path) + Window(s, table)[..m]
  {
    ReachedPass(w, path, env, table, k, m);
    VisitFile(w.process.value, w.file, path, env);
    VisitActs(w, path, env);
  }

  /** A process that dies between two pages has delivered the pages before and leaves the file as it was. */
  lemma DeathKeepsFile(w: World, path: Path, env: VisitEnv, table: Table, m: nat)
    requires ReachesPage(w, path, env, table, |env.pages|, m)
    ensures var s, w' := w.process.value.settings, Step(w, VisitDb(path, env));
            && w'.process.None? && w'.file == w.file
            && RowsTo(w'.log, path) == RowsTo(w.log, path) + Window(s, table)[..m]
  {
    ReachedPass(w, path, env, table, |env.pages|, m);
    VisitFile(w.process.value, w.file, path, env);
    VisitRows(w.process.value, w.file, path, env, w.log, path);
  }

  // ------------------------------------------------------------------ retries within one process

  predicate NoneCompletes(s: Settings, events: seq<Event>, path: Path) {
    forall e | e in events && Visits(e, path) :: !Visit(s, ZERO_TIME, false, e.env).end.Drained()
  }

  predicate SomeSendFails(s: Settings, events: seq<Event>, path: Path) {
    exists e :: e in events && Visits(e, path) && Visit(s, ZERO_TIME, false, e.env).end.SendFailed?
  }

  /** A replay visit that does not complete leaves the cursor alone, or rewinds it when a send fails. */
  lemma FailedVisit(w: World, path: Path, env: VisitEnv)
    requires Replays(w, path) && Step(w, VisitDb(path, env)).process.Some?
    requires var s := w.process.value.settings; !Visit(s, ZERO_TIME, false, env).end.Drained()
    ensures var s, w' := w.process.value.settings, Step(w, VisitDb(path, env));
            && Replays(w', path) && w'.process.value.settings == s
            && CursorIn(w', path) == if Visit(s, ZERO_TIME, false, env).end.SendFailed?
                then Min(s.since, CursorIn(w, path)) else CursorIn(w, path)
  {
    VisitActs(w, path, env);
    NotAPoll(w.process.value.settings, w.process.value.settings.since, NO_ID, env.pages);
  }

  /** After any number of passes of a process that did not complete, with whatever else the process does between them,
      the cursor is the original one, or the rewound one as soon as one of them failed to send. */
  lemma {:induction false} FailuresRewindOnce(w: World, events: seq<Event>, path: Path)
    requires Replays(w, path) && LivesThrough(w, events)
    requires NoneCompletes(w.process.value.settings, events, path)
    ensures var s, c, w' := w.process.value.settings, CursorIn(w, path), Run(w, events);
            && Replays(w', path) && w'.process.value.settings == s
            && CursorIn(w', path) == if SomeSendFails(s, events, path) then Min(s.since, c) else c
    decreases |events|
  {
    if events != [] {
      var s, e, next := w.process.value.settings, events[0], Step(w, events[0]);
      var rest := events[1..];
      assert e in events && forall x | x in rest :: x in events;
      LivesOn(w, events);
      if Visits(e, path) { FailedVisit(w, path, e.env); } else { OthersSpare(w, e, path); }
      FailuresRewindOnce(next, rest, path);
      FirstSendFails(s, events, path);
    }
  }

  lemma FirstSendFails(s: Settings, events: seq<Event>, path: Path)
    requires events != []
    ensures SomeSendFails(s, events, path)
       <==> (Visits(events[0], path) && Visit(s, ZERO_TIME, false, events[0].env).end.SendFailed?)
            || SomeSendFails(s, events[1..], path)
  {
    assert events == [events[0]] + events[1..];
  }

  /** A process fails any number of passes of a database and then completes one over an unchanging table. */
  predicate Retried(w: World, failed: seq<Event>, path: Path, done: VisitEnv, table: Table) {
    && Replays(w, path) && LivesThrough(w, failed)
    && var s := w.process.value.settings;
       && NoneCompletes(s, failed, path) && done.opens && CompletesOver(s, done.pages, table) && HasIds(table)
  }

  /** Where the window ends, cut off at `until`. It is never past it, unless the bound vanishes. */
  function ClampedEnd(s: Settings, table: Table): Time {
    if IsZero(s.until) then WindowEnd(s, table) else Min(WindowEnd(s, table), s.until)
  }

  /** The exact cursor after failed passes and then a completed one over an unchanging table: the original cursor when
      the window starts after it; otherwise where the window ends, and at least the original cursor only if no pass
      had failed to send. */
  lemma CursorAcrossRetries(w: World, failed: seq<Event>, path: Path, done: VisitEnv, table: Table)
    requires Retried(w, failed, path, done, table)
    ensures var s, c := w.process.value.settings, CursorIn(w, path);
            var w' := Run(w, failed + [VisitDb(path, done)]);
            && Polls(w', path)
            && CursorIn(w', path) == if s.since > c then c
                else if SomeSendFails(s, failed, path) then Max(s.since, ClampedEnd(s, table))
                else Max(c, ClampedEnd(s, table))
  {
    var before := Run(w, failed);
    FailuresRewindOnce(w, failed, path);
    RunJoin(w, failed, [VisitDb(path, done)]);
    assert Run(before, [VisitDb(path, done)]) == Step(before, VisitDb(path, done));
    CompletedVisit(before, path, done, table);
  }

  /** Unless the bound vanishes, the window's end needs no cut. */
  lemma CursorWithinBound(s: Settings, table: Table)
    requires !BoundVanishes(s.until)
    ensures Max(s.since, ClampedEnd(s, table)) == WindowEnd(s, table)
    ensures forall c | s.since <= c :: Max(c, ClampedEnd(s, table)) == Max(c, WindowEnd(s, table))
  {
    WindowEndsAfterSince(s, table);
    if Window(s, table) != [] {
      var last := Last(Window(s, table));
      SortedFacts(Pending(table, s.since, s.until, NO_ID));
      assert last in Window(s, table);
      MilliBoundsAreExact(last.t, s.until);
    }
  }

  /** Where a completed pass over an unchanging table leaves the cursor. */
  function ReplayedCursor(s: Settings, cursor: Time, table: Table): Time {
    if s.since > cursor then cursor else Max(cursor, ClampedEnd(s, table))
  }

  /** A replay visit that completes over an unchanging table delivers the window, moves the cursor and latches. */
  lemma CompletedVisit(w: World, path: Path, env: VisitEnv, table: Table)
    requires Replays(w, path) && env.opens && HasIds(table)
    requires CompletesOver(w.process.value.settings, env.pages, table)
    ensures var s, c, w' := w.process.value.settings, CursorIn(w, path), Step(w, VisitDb(path, env));
            && Polls(w', path) && w'.process.value.settings == s
            && CursorIn(w', path) == ReplayedCursor(s, c, table)
            && RowsTo(w'.log, path) == RowsTo(w.log, path) + Window(s, table)
            && w'.file == AfterSave(w.file, w'.process.value.cursors, env.save)
  {
    CompletedReplay(w.process.value, path, env, table);
    VisitActs(w, path, env);
  }

  lemma CompletedReplay(p: Process, path: Path, env: VisitEnv, table: Table)
    requires p.settings.replay && path !in p.replayed && env.opens && HasIds(table)
    requires CompletesOver(p.settings, env.pages, table)
    ensures var s, c, pass := p.settings, CursorOf(p.cursors, path), PassOf(p, path, env);
            && pass.end.Drained() && Concat(pass.acks) == Window(s, table)
            && CursorWrite(s, c, false, pass.end) == Some(ReplayedCursor(s, c, table))
  {
    CompletionWrite(p.settings, CursorOf(p.cursors, path), table, env.pages);
  }

  lemma WindowEndsAfterSince(s: Settings, table: Table)
    ensures WindowEnd(s, table) >= s.since
  {
    SortedFacts(Pending(table, s.since, s.until, NO_ID));
    if Window(s, table) != [] {
      var last := Last(Window(s, table));
      assert last in Window(s, table);
      MilliBoundsAreExact(last.t, s.since);
    }
  }

  /** Some usage row of the window lies at or after the cursor. A vanishing bound keeps no row out, but `until` still
      caps the cursor. */
  predicate WindowHasRowFrom(s: Settings, table: Table, cursor: Time) {
    exists r :: r in table && r.tokens && s.since < r.OccurredAt() && cursor <= r.OccurredAt()
      && (IsZero(s.until) || r.OccurredAt() <= s.until || (BoundVanishes(s.until) && cursor <= s.until))
  }

  /** A row of the window lies at or before the end of the window. */
  lemma WindowEndBounds(s: Settings, table: Table, r: Row)
    requires r in Window(s, table)
    ensures r.OccurredAt() <= WindowEnd(s, table)
  {
    var q := Window(s, table);
    SortedFacts(Pending(table, s.since, s.until, NO_ID));
    var i :| 0 <= i < |q| && q[i] == r;
    assert i == |q| - 1 || Before(q[i], Last(q));
  }

  lemma WindowReaches(s: Settings, table: Table, cursor: Time)
    requires s.since < cursor
    ensures ClampedEnd(s, table) >= cursor <==> WindowHasRowFrom(s, table, cursor)
  {
    SortedFacts(Pending(table, s.since, s.until, NO_ID));
    if WindowHasRowFrom(s, table, cursor) {
      var r :| r in table && r.tokens && s.since < r.OccurredAt() && cursor <= r.OccurredAt()
        && (IsZero(s.until) || r.OccurredAt() <= s.until || (BoundVanishes(s.until) && cursor <= s.until));
      MilliBoundsAreExact(r.t, s.since);
      MilliBoundsAreExact(r.t, s.until);
      assert r in Window(s, table);
      WindowEndBounds(s, table, r);
    }
    if Window(s, table) != [] {
      var last := Last(Window(s, table));
      assert last in Window(s, table);
      MilliBoundsAreExact(last.t, s.since);
      MilliBoundsAreExact(last.t, s.until);
    }
  }

  /** "Never regresses below the cursor stored before the replay" holds across retries if and only if the window starts
      at or after that cursor, no send failed, or a usage row of the window lies at or after it. */
  lemma NeverRegressesExactly(w: World, failed: seq<Event>, path: Path, done: VisitEnv, table: Table)
    requires Retried(w, failed, path, done, table)
    ensures var s, c := w.process.value.settings, CursorIn(w, path);
            var w' := Run(w, failed + [VisitDb(path, done)]);
            w'.process.Some?
            && (CursorIn(w', path) >= c
                <==> s.since >= c || !SomeSendFails(s, failed, path) || WindowHasRowFrom(s, table, c))
  {
    var s, c := w.process.value.settings, CursorIn(w, path);
    CursorAcrossRetries(w, failed, path, done, table);
    if s.since < c { WindowReaches(s, table, c); }
  }

  // A table with one row, at 5 ms, and a replay of its full history until 7 ms.
  const ROW_5 := Row([97], 5, true, true)
  const TABLE_5: Table := {ROW_5}
  const UNTIL_7 := Settings(true, ZERO_TIME, FromMilli(7), 10, 0)
  const START_7 := Start(Config(true, 0, FromMilli(7), 10, 0), 0, Boot(true, true, true))

  function PageOf5(sendOk: bool): VisitEnv {
    VisitEnv(true, [Page(TABLE_5, true, sendOk, 0)], Written, BeatEnv(0, true, 0))
  }

  lemma PassesOver5()
    ensures WindowEnd(UNTIL_7, TABLE_5) == FromMilli(5) && CompletesOver(UNTIL_7, PageOf5(true).pages, TABLE_5)
    ensures Visit(UNTIL_7, ZERO_TIME, false, PageOf5(false)).end == SendFailed
  {
    assert Pending(TABLE_5, ZERO_TIME, UNTIL_7.until, NO_ID) == {ROW_5};
    SortedFacts({ROW_5});
    OrderedIsUnique(Window(UNTIL_7, TABLE_5), [ROW_5]);
    WindowPage(TABLE_5, ZERO_TIME, UNTIL_7.until, NO_ID, 10);
    QuietPassCompletes(UNTIL_7, TABLE_5, PageOf5(true).pages);
  }

  /** A concrete regression: a process with a stored cursor of 10 ms runs that replay. Its first pass fails to send, its
      second completes, and the cursor ends at 5 ms. */
  lemma RetryRegresses()
    ensures var path := "db";
            var before := World(Entries(map[path := Stamped(FromMilli(10))]), None, map[], []);
            var after := Run(before, [START_7, VisitDb(path, PageOf5(false)), VisitDb(path, PageOf5(true))]);
            FileCursor(before.file, path) == FromMilli(10)
            && after.process.Some? && CursorIn(after, path) == FromMilli(5)
  {
    var path := "db";
    var before := World(Entries(map[path := Stamped(FromMilli(10))]), None, map[], []);
    var visits := [VisitDb(path, PageOf5(false)), VisitDb(path, PageOf5(true))];
    assert [START_7] + visits == [START_7, VisitDb(path, PageOf5(false)), VisitDb(path, PageOf5(true))];
    RunJoin(before, [START_7], visits);
    Start7(before);
    PassesOver5();
    OneRetry(Step(before, START_7), path, PageOf5(false), PageOf5(true), TABLE_5);
  }

  lemma Start7(before: World)
    requires before.file == Entries(map["db" := Stamped(FromMilli(10))])
    ensures FileCursor(before.file, "db") == FromMilli(10)
    ensures var w := Step(before, START_7);
            && w == Run(before, [START_7])
            && Replays(w, "db") && w.process.value.settings == UNTIL_7 && CursorIn(w, "db") == FromMilli(10)
  {
  }

  /** The cursor after one failed send and a completed pass. */
  lemma OneRetry(w: World, path: Path, fails: VisitEnv, done: VisitEnv, table: Table)
    requires Replays(w, path) && done.opens && HasIds(table)
    requires var s := w.process.value.settings;
             Visit(s, ZERO_TIME, false, fails).end.SendFailed? && CompletesOver(s, done.pages, table)
    ensures var s, c := w.process.value.settings, CursorIn(w, path);
            var after := Run(w, [VisitDb(path, fails), VisitDb(path, done)]);
            after.process.Some?
            && CursorIn(after, path) == if s.since > c then c else Max(s.since, ClampedEnd(s, table))
  {
    var visit := VisitDb(path, fails);
    OneFailure(w, path, fails);
    assert visit in [visit];
    CursorAcrossRetries(w, [visit], path, done, table);
    assert [visit, VisitDb(path, done)] == [visit] + [VisitDb(path, done)];
  }

  lemma OneFailure(w: World, path: Path, fails: VisitEnv)
    requires Replays(w, path) && Visit(w.process.value.settings, ZERO_TIME, false, fails).end.SendFailed?
    ensures LivesThrough(w, [VisitDb(path, fails)])
    ensures NoneCompletes(w.process.value.settings, [VisitDb(path, fails)], path)
  {
    var visit := VisitDb(path, fails);
    assert Run(w, [visit]) == Run(Step(w, visit), []);
  }
}
