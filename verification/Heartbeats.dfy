/** Heartbeats and the replay latch over whole runs. */
module Heartbeats {
  import opened Clock
  import opened Rows
  import opened Reader
  import opened State
  import opened Protocol
  import opened Paging
  import opened Runs
  import opened Cursors
  import opened Handover
  import opened Starts

  // ------------------------------------------------------------------ heartbeats follow real deliveries

  ghost predicate HasBatch(log: seq<Delivery>, path: Path) {
    exists i :: 0 <= i < |log| && log[i].Batch? && log[i].path == path && log[i].rows != []
  }

  /** Every heartbeat in the log comes after an acknowledged, non-empty batch of its database. */
  ghost predicate BeatsFollowBatches(log: seq<Delivery>) {
    forall i | 0 <= i < |log| && log[i].Beat? :: HasBatch(log[..i], log[i].path)
  }

  /** A non-zero cursor, in memory or in the file, and a recorded success are each earned by a delivery. */
  ghost predicate Earned(w: World) {
    && BeatsFollowBatches(w.log)
    && (forall path :: FileCursor(w.file, path) != ZERO_TIME ==> HasBatch(w.log, path))
    && (w.process.Some? ==>
          && w.process.value.settings.since >= ZERO_TIME
          && (forall path :: CursorOf(w.process.value.cursors, path) != ZERO_TIME ==> HasBatch(w.log, path))
          && (forall path | path in w.process.value.lastSuccess :: HasBatch(w.log, path)))
  }

  /** Processes are started after 1970; a Go duration then keeps the replay start after year 1. */
  predicate SaneClock(e: Event) { e.Start? ==> e.now >= 0 }

  lemma HasBatchGrows(log: seq<Delivery>, more: seq<Delivery>, path: Path)
    requires HasBatch(log, path)
    ensures HasBatch(log + more, path)
  {
    var i :| 0 <= i < |log| && log[i].Batch? && log[i].path == path && log[i].rows != [];
    assert (log + more)[i] == log[i];
  }

  lemma AckedHasBatch(log: seq<Delivery>, path: Path, acks: seq<seq<Row>>)
    requires acks != [] && [] !in acks
    ensures HasBatch(log + Batches(path, acks), path)
  {
    assert acks[0] in acks;
    assert (log + Batches(path, acks))[|log|] == Batch(path, acks[0]);
  }

  /** A visit writes a non-zero cursor only if it delivered a batch or the stored cursor was non-zero already. */
  lemma WriteIsEarned(p: Process, path: Path, env: VisitEnv)
    requires p.settings.since >= ZERO_TIME
    ensures var c := CursorOf(p.cursors, path);
            var pass := PassOf(p, path, env);
            var write := CursorWrite(p.settings, c, path in p.replayed, pass.end);
            write.Some? && write.value != ZERO_TIME ==> pass.acks != [] || c != ZERO_TIME
  {
    var pass := PassOf(p, path, env);
    if pass.end.Polled? {
      PolledHasAck(p.settings, p.settings.since, NO_ID, env.pages, true);
      PolledHasAck(p.settings, CursorOf(p.cursors, path), NO_ID, env.pages, false);
    } else if pass.end.Drained() {
      FrontierIsLastSent(p.settings, p.settings.since, NO_ID, env.pages);
    }
  }

  lemma {:induction false} PolledHasAck(s: Settings, since: Time, afterId: Id, pages: seq<Page>, replaying: bool)
    ensures var pass := Loop(s, replaying, since, afterId, pages); pass.end.Polled? ==> pass.acks != []
  {
  }

  /** The log of a visit: batches, then at most one heartbeat. */
  lemma VisitLog(p: Process, file: StateFile, path: Path, env: VisitEnv)
    ensures var pass := PassOf(p, path, env);
            var d := VisitProcess(p, file, path, env).deliveries;
            var successes := AfterSends(p.lastSuccess, path, pass, env.save);
            d == Batches(path, pass.acks) + if BeatDue(p.settings, Lookup(successes, path), pass.end, env.beat)
                then [Beat(path, env.beat.sendOk, env.beat.sentAt)] else []
  {
  }

  lemma VisitKeepsBeatsEarned(p: Process, file: StateFile, path: Path, env: VisitEnv, log: seq<Delivery>)
    requires BeatsFollowBatches(log) && (path in p.lastSuccess ==> HasBatch(log, path))
    ensures BeatsFollowBatches(log + VisitProcess(p, file, path, env).deliveries)
    ensures PassOf(p, path, env).acks != [] ==> HasBatch(log + VisitProcess(p, file, path, env).deliveries, path)
  {
    var pass := PassOf(p, path, env);
    var d := VisitProcess(p, file, path, env).deliveries;
    var sent := log + Batches(path, pass.acks);
    VisitLog(p, file, path, env);
    if pass.acks != [] {
      AckedHasBatch(log, path, pass.acks);
      assert log + d == sent + d[|pass.acks|..];
      HasBatchGrows(sent, d[|pass.acks|..], path);
    } else if path in p.lastSuccess {
      assert sent == log;
    }
    forall i | 0 <= i < |log + d| && (log + d)[i].Beat? ensures HasBatch((log + d)[..i], (log + d)[i].path) {
      if i < |log| {
        assert (log + d)[..i] == log[..i];
      } else {
        assert (log + d)[..i] == sent;
      }
    }
  }

  lemma VisitKeepsEarned(w: World, path: Path, env: VisitEnv)
    requires Earned(w) && w.process.Some?
    ensures Earned(Step(w, VisitDb(path, env)))
  {
    var p := w.process.value;
    var w' := Step(w, VisitDb(path, env));
    var v := VisitProcess(p, w.file, path, env);
    VisitKeepsBeatsEarned(p, w.file, path, env, w.log);
    WriteIsEarned(p, path, env);
    var write := CursorWrite(p.settings, CursorOf(p.cursors, path), path in p.replayed, PassOf(p, path, env).end);
    var cursors := Stored(p.cursors, path, write);
    forall q ensures HasBatch(w.log, q) ==> HasBatch(w'.log, q) {
      if HasBatch(w.log, q) { HasBatchGrows(w.log, v.deliveries, q); }
    }
    assert forall q :: CursorOf(cursors, q) != ZERO_TIME ==> HasBatch(w'.log, q);
    forall q ensures FileCursor(w'.file, q) != ZERO_TIME ==> HasBatch(w'.log, q) {
      SaveNeverInvents(w.file, cursors, env.save, q);
    }
  }

  lemma {:induction false} RunKeepsEarned(w: World, events: seq<Event>)
    requires Earned(w) && forall e | e in events :: SaneClock(e)
    ensures Earned(Run(w, events))
    decreases |events|
  {
    if events != [] {
      var e := events[0];
      assert e in events && forall x | x in events[1..] :: x in events;
      if e.VisitDb? && w.process.Some? { VisitKeepsEarned(w, e.path, e.env); }
      assert Earned(Step(w, e));
      RunKeepsEarned(Step(w, e), events[1..]);
    }
  }

  /** In every run of every sequence of processes, also when lastSuccess is seeded from disk, each attempted heartbeat
      is preceded by an acknowledged non-empty batch of its database, and so is every non-zero cursor. */
  lemma HeartbeatsImplyDelivery(events: seq<Event>)
    requires forall e | e in events :: SaneClock(e)
    ensures Earned(Run(FRESH_WORLD, events))
  {
    RunKeepsEarned(FRESH_WORLD, events);
  }

  // ------------------------------------------------------------------ their rate

  /** Times of the successful heartbeats of a database, oldest first. */
  function BeatTimes(log: seq<Delivery>, path: Path): seq<Time> {
    if log == [] then []
    else (if log[0].Beat? && log[0].path == path && log[0].ok then [log[0].at] else []) + BeatTimes(log[1..], path)
  }

  lemma {:induction false} BeatTimesJoin(a: seq<Delivery>, b: seq<Delivery>, path: Path)
    ensures BeatTimes(a + b, path) == BeatTimes(a, path) + BeatTimes(b, path)
  {
    if a == [] {
      assert a + b == b;
    } else {
      assert (a + b)[1..] == a[1..] + b;
      BeatTimesJoin(a[1..], b, path);
    }
  }

  lemma {:induction false} NoBeatInBatches(acks: seq<seq<Row>>, path: Path, q: Path)
    ensures BeatTimes(Batches(path, acks), q) == []
  {
    if acks != [] {
      assert Batches(path, acks)[1..] == Batches(path, acks[1..]);
      NoBeatInBatches(acks[1..], path, q);
    }
  }

  /** All clock readings of an event lie in [from, to], and a heartbeat is sent after its check. */
  predicate Timed(e: Event, from: Time, to: Time) {
    match e
    case Start(_, now, _) => from <= now <= to
    case Seed(_, at) => from <= at <= to
    case VisitDb(_, env) => from <= env.beat.checkedAt <= env.beat.sentAt <= to && forall g | g in env.pages ::
        from <= g.ackedAt <= to
    case _ => from <= to
  }

  predicate TimedRun(events: seq<Event>, clock: seq<Time>) {
    |clock| == |events| + 1 && forall i | 0 <= i < |events| :: Timed(events[i], clock[i], clock[i + 1])
  }

  predicate BeatsEvery(e: Event, gap: int) { e.Start? ==> e.config.heartbeat >= gap }

  predicate NotAfter(times: seq<Time>, t: Time) { times != [] ==> times[|times| - 1] <= t }

  /** Heartbeats so far are spaced, not in the future, and not after the last recorded success. */
  ghost predicate Paced(w: World, gap: int, now: Time) {
    && (forall path :: Spaced(BeatTimes(w.log, path), gap) && NotAfter(BeatTimes(w.log, path), now))
    && (w.process.Some? ==>
          && w.process.value.settings.heartbeat >= gap
          && forall path | path in w.process.value.lastSuccess ::
              NotAfter(BeatTimes(w.log, path), w.process.value.lastSuccess[path]))
  }

  lemma {:induction false} AckTimesInRange(s: Settings, replaying: bool, since: Time, afterId: Id, pages: seq<Page>,
      from: Time, to: Time)
    requires forall g | g in pages :: from <= g.ackedAt <= to
    ensures var pass := Loop(s, replaying, since, afterId, pages);
            pass.ackedAt.Some? ==> from <= pass.ackedAt.value <= to
    decreases |pages|
  {
    if pages != [] {
      assert pages[0] in pages && forall g | g in pages[1..] :: g in pages;
      var turn := TakeTurn(s, replaying, since, afterId, pages[0]);
      if turn.end.None? {
        AckTimesInRange(s, replaying, Last(turn.ack.value).OccurredAt(), Last(turn.ack.value).id, pages[1..], from, to);
      }
    }
  }

  /** Times of the successful heartbeats of a visit: none or one. */
  function NewBeats(p: Process, path: Path, env: VisitEnv, pass: Pass): seq<Time> {
    var success := Lookup(AfterSends(p.lastSuccess, path, pass, env.save), path);
    if BeatDue(p.settings, success, pass.end, env.beat) && env.beat.sendOk then [env.beat.sentAt] else []
  }

  lemma VisitBeatTimes(p: Process, file: StateFile, path: Path, env: VisitEnv, log: seq<Delivery>, q: Path)
    ensures BeatTimes(log + VisitProcess(p, file, path, env).deliveries, q)
         == BeatTimes(log, q) + if q == path then NewBeats(p, path, env, PassOf(p, path, env)) else []
  {
    var d := VisitProcess(p, file, path, env).deliveries;
    var batches := Batches(path, PassOf(p, path, env).acks);
    VisitLog(p, file, path, env);
    assert d == batches + d[|batches|..];
    BeatTimesJoin(log, d, q);
    BeatTimesJoin(batches, d[|batches|..], q);
    NoBeatInBatches(PassOf(p, path, env).acks, path, q);
    assert BeatTimes([], q) == [];
    assert BeatTimes([Beat(path, env.beat.sendOk, env.beat.sentAt)], q) == if q == path
        && env.beat.sendOk then [env.beat.sentAt] else [];
  }

  /** A heartbeat goes out a full interval after the last success, and later ones are measured from it. */
  lemma NewBeatsArePaced(p: Process, path: Path, env: VisitEnv, pass: Pass, times: seq<Time>, gap: int, from: Time,
      to: Time)
    requires Timed(VisitDb(path, env), from, to) && p.settings.heartbeat >= gap
    requires pass.ackedAt.Some? ==> from <= pass.ackedAt.value <= to
    requires Spaced(times, gap) && NotAfter(times, from)
        && (path in p.lastSuccess ==> NotAfter(times, p.lastSuccess[path]))
    ensures Spaced(times + NewBeats(p, path, env, pass), gap) && NotAfter(times + NewBeats(p, path, env, pass), to)
    ensures var next := Settled(p, Absent, path, env, pass).process;
            next.Some? && path in next.value.lastSuccess ==>
              NotAfter(times + NewBeats(p, path, env, pass), next.value.lastSuccess[path])
  {
  }

  /** The heartbeats of database `q` stay paced through a visit to `path`. */
  lemma VisitKeepsPacedFor(p: Process, file: StateFile, path: Path, env: VisitEnv, log: seq<Delivery>, q: Path,
      gap: int, from: Time, to: Time)
    requires Timed(VisitDb(path, env), from, to) && p.settings.heartbeat >= gap
    requires forall x :: Spaced(BeatTimes(log, x), gap) && NotAfter(BeatTimes(log, x), from)
    requires forall x | x in p.lastSuccess :: NotAfter(BeatTimes(log, x), p.lastSuccess[x])
    ensures var v := VisitProcess(p, file, path, env);
            var times := BeatTimes(log + v.deliveries, q);
            Spaced(times, gap) && NotAfter(times, to)
            && (v.process.Some? && q in v.process.value.lastSuccess ==> NotAfter(times, v.process.value.lastSuccess[q]))
  {
    VisitBeatTimes(p, file, path, env, log, q);
    if q == path {
      AckTimesInRange(p.settings, true, p.settings.since, NO_ID, env.pages, from, to);
      AckTimesInRange(p.settings, false, CursorOf(p.cursors, path), NO_ID, env.pages, from, to);
      NewBeatsArePaced(p, path, env, PassOf(p, path, env), BeatTimes(log, path), gap, from, to);
    } else {
      assert BeatTimes(log, q) + [] == BeatTimes(log, q);
    }
  }

  lemma VisitKeepsPaced(w: World, path: Path, env: VisitEnv, gap: int, from: Time, to: Time)
    requires Paced(w, gap, from) && w.process.Some? && Timed(VisitDb(path, env), from, to)
    ensures Paced(Step(w, VisitDb(path, env)), gap, to)
  {
    var p := w.process.value;
    var v := VisitProcess(p, w.file, path, env);
    forall q
      ensures Spaced(BeatTimes(w.log + v.deliveries, q), gap) && NotAfter(BeatTimes(w.log + v.deliveries, q), to)
      ensures v.process.Some? && q in v.process.value.lastSuccess
          ==> NotAfter(BeatTimes(w.log + v.deliveries, q), v.process.value.lastSuccess[q])
    {
      VisitKeepsPacedFor(p, w.file, path, env, w.log, q, gap, from, to);
    }
  }

  lemma StepKeepsPaced(w: World, e: Event, gap: int, from: Time, to: Time)
    requires Paced(w, gap, from) && Timed(e, from, to) && BeatsEvery(e, gap)
    ensures Paced(Step(w, e), gap, to)
  {
    if e.VisitDb? && w.process.Some? { VisitKeepsPaced(w, e.path, e.env, gap, from, to); }
  }

  lemma {:induction false} RunKeepsPaced(w: World, events: seq<Event>, gap: int, clock: seq<Time>)
    requires TimedRun(events, clock) && Paced(w, gap, clock[0]) && forall e | e in events :: BeatsEvery(e, gap)
    ensures Paced(Run(w, events), gap, clock[|events|])
    decreases |events|
  {
    if events != [] {
      assert events[0] in events && forall e | e in events[1..] :: e in events;
      StepKeepsPaced(w, events[0], gap, clock[0], clock[1]);
      forall i | 0 <= i < |events[1..]| ensures Timed(events[1..][i], clock[1..][i], clock[1..][i + 1]) {
        assert Timed(events[i + 1], clock[i + 1], clock[i + 2]);
      }
      RunKeepsPaced(Step(w, events[0]), events[1..], gap, clock[1..]);
    }
  }

  /** Under a monotone clock, and across restarts, the i-th to the j-th successful heartbeat of a database span at
      least (j - i) heartbeat intervals. */
  lemma HeartbeatRate(events: seq<Event>, gap: int, clock: seq<Time>, path: Path, i: nat, j: nat)
    requires TimedRun(events, clock) && forall e | e in events :: BeatsEvery(e, gap)
    requires i <= j < |BeatTimes(Run(FRESH_WORLD, events).log, path)|
    ensures var times := BeatTimes(Run(FRESH_WORLD, events).log, path);
            (j - i) * gap <= times[j] - times[i]
  {
    RunKeepsPaced(FRESH_WORLD, events, gap, clock);
    SpacedSpan(BeatTimes(Run(FRESH_WORLD, events).log, path), gap, i, j);
  }

  // ------------------------------------------------------------------ what a visit sends and records

  /** The last acknowledgement of a pass is that of its last acknowledged page. */
  lemma {:induction false} LastAck(s: Settings, replaying: bool, since: Time, afterId: Id, pages: seq<Page>)
    ensures var pass := Loop(s, replaying, since, afterId, pages);
            pass.ackedAt == if pass.acks == [] then None else Some(pages[|pass.acks| - 1].ackedAt)
    decreases |pages|
  {
    if pages != [] {
      var turn := TakeTurn(s, replaying, since, afterId, pages[0]);
      if turn.end.None? {
        LastAck(s, replaying, Last(turn.ack.value).OccurredAt(), Last(turn.ack.value).id, pages[1..]);
      }
    }
  }

  /** The success on record after the sends of a visit: the time of the last acknowledged page, except that a poll whose
      save fails records none. */
  function SuccessAfterSends(w: World, path: Path, env: VisitEnv): Option<Time>
    requires w.process.Some?
  {
    var p := w.process.value;
    var n := |PassOf(p, path, env).acks|;
    if n == 0 || (Polls(w, path) && !env.save.Written?) then Lookup(p.lastSuccess, path)
    else Some(env.pages[n - 1].ackedAt)
  }

  /** After its batches a visit sends a heartbeat exactly when it ended on an empty page with a success on record that
      is an interval old; only an acknowledged one renews the record. */
  lemma VisitBeatsExactly(w: World, path: Path, env: VisitEnv)
    requires w.process.Some? && Step(w, VisitDb(path, env)).process.Some?
    ensures var p, w', pass := w.process.value, Step(w, VisitDb(path, env)), PassOf(w.process.value, path, env);
            var success := SuccessAfterSends(w, path, env);
            var beats := (pass.end.Idle? || pass.end.DrainedEmpty?) && success.Some?
                && env.beat.checkedAt - success.value >= p.settings.heartbeat;
            && w'.log == w.log + (Batches(path, pass.acks)
                 + if beats then [Beat(path, env.beat.sendOk, env.beat.sentAt)] else [])
            && Lookup(w'.process.value.lastSuccess, path)
                 == if beats && env.beat.sendOk then Some(env.beat.sentAt) else success
  {
    SendsAreRecorded(w, path, env);
    SettledBeats(w.process.value, w.file, path, env, PassOf(w.process.value, path, env));
  }

  lemma SendsAreRecorded(w: World, path: Path, env: VisitEnv)
    requires w.process.Some?
    ensures Lookup(AfterSends(w.process.value.lastSuccess, path, PassOf(w.process.value, path, env), env.save), path)
         == SuccessAfterSends(w, path, env)
  {
    var p := w.process.value;
    if Polls(w, path) {
      LastAck(p.settings, false, CursorIn(w, path), NO_ID, env.pages);
      PollEnds(p, path, env);
    } else {
      LastAck(p.settings, true, p.settings.since, NO_ID, env.pages);
      NotAPoll(p.settings, p.settings.since, NO_ID, env.pages);
    }
  }

  lemma SettledBeats(p: Process, file: StateFile, path: Path, env: VisitEnv, pass: Pass)
    requires !pass.end.Died?
    ensures var v, success := Settled(p, file, path, env, pass),
                              Lookup(AfterSends(p.lastSuccess, path, pass, env.save), path);
            var beats := (pass.end.Idle? || pass.end.DrainedEmpty?) && success.Some?
                && env.beat.checkedAt - success.value >= p.settings.heartbeat;
            && v.deliveries == Batches(path, pass.acks)
                 + (if beats then [Beat(path, env.beat.sendOk, env.beat.sentAt)] else [])
            && v.process.Some?
            && Lookup(v.process.value.lastSuccess, path)
                 == if beats && env.beat.sendOk then Some(env.beat.sentAt) else success
  {
  }

  /** How a poll ends: a closed database, a failed read, no unread rows, a failed send, or its page delivered. */
  lemma PollEnds(p: Process, path: Path, env: VisitEnv)
    ensures !(p.settings.replay && path !in p.replayed) && (env.opens ==> env.pages != []) ==>
              var pass := PassOf(p, path, env);
              if !env.opens then pass.acks == [] && pass.end == OpenFailed
              else
                var page, q := env.pages[0], Unread(env.pages[0].table, CursorOf(p.cursors, path));
                var rows := q[..PageSize(q, p.settings.limit)];
                if !page.readOk || !Decodes(rows) then pass.acks == [] && pass.end == ReadFailed
                else if q == [] then pass.acks == [] && pass.end == Idle
                else if !page.sendOk then pass.acks == [] && pass.end == SendFailed
                else pass.acks == [rows] && pass.end == Polled(Last(rows).OccurredAt())
  {
    var c := CursorOf(p.cursors, path);
    if env.opens && env.pages != [] {
      PollRead(env.pages[0].table, c, p.settings.limit);
      LoopStops(p.settings, false, c, NO_ID, env.pages);
    }
  }

  /** A poll that finds the table without unread rows delivers nothing, writes nothing, and sends a heartbeat exactly
      when a success is on record that is an interval old. */
  lemma IdlePollBeats(w: World, path: Path, env: VisitEnv)
    requires Polls(w, path) && env.opens && env.pages != [] && env.pages[0].readOk
    requires Unread(env.pages[0].table, CursorIn(w, path)) == []
    ensures var p, w' := w.process.value, Step(w, VisitDb(path, env));
            var beats := path in p.lastSuccess
                && env.beat.checkedAt - p.lastSuccess[path] >= p.settings.heartbeat;
            && w'.log == w.log + (if beats then [Beat(path, env.beat.sendOk, env.beat.sentAt)] else [])
            && w'.file == w.file
            && w'.process == Some(if beats && env.beat.sendOk
                 then p.(lastSuccess := p.lastSuccess[path := env.beat.sentAt]) else p)
  {
    PollEnds(w.process.value, path, env);
  }

  /** A poll whose database does not open, whose page cannot be read, or whose send fails, changes nothing at all: no
      cursor, no file, no record of success, and no heartbeat. */
  lemma FailedPollChangesNothing(w: World, path: Path, env: VisitEnv)
    requires Polls(w, path) && (env.opens ==> env.pages != [])
    requires env.opens ==>
               var page, q := env.pages[0], Unread(env.pages[0].table, CursorIn(w, path));
               var rows := q[..PageSize(q, w.process.value.settings.limit)];
               !page.readOk || !Decodes(rows) || (rows != [] && !page.sendOk)
    ensures var w' := Step(w, VisitDb(path, env)); w'.process == w.process && w'.file == w.file && w'.log == w.log
  {
    PollEnds(w.process.value, path, env);
    assert w.log + [] == w.log;
  }

  /** A poll that works delivers its page as one batch, moves and saves the cursor, and records the success if the save
      worked; it sends no heartbeat. */
  lemma WorkingPoll(w: World, path: Path, env: VisitEnv)
    requires Polls(w, path) && Healthy(env)
    requires var q := Unread(env.pages[0].table, CursorIn(w, path)); !Stuck(q, w.process.value.settings.limit)
    ensures var p, w' := w.process.value, Step(w, VisitDb(path, env));
            var q := Unread(env.pages[0].table, CursorIn(w, path));
            var rows := q[..PageSize(q, p.settings.limit)];
            var cursors := p.cursors[path := Last(rows).OccurredAt()];
            && w'.log == w.log + [Batch(path, rows)] && w'.file == AfterSave(w.file, cursors, env.save)
            && w'.process == Some(p.(cursors := cursors,
                 lastSuccess := if env.save.Written? then p.lastSuccess[path := env.pages[0].ackedAt]
                                else p.lastSuccess))
  {
    var p := w.process.value;
    PollEnds(p, path, env);
    LastAck(p.settings, false, CursorIn(w, path), NO_ID, env.pages);
    VisitLog(p, w.file, path, env);
  }

  /** A database with a stored cursor gets heartbeats again after a restart: its first idle poll sends one exactly when
      the first cycle, which found it, is an interval old. */
  lemma RestartedDatabaseBeats(w: World, config: Config, now: Time, paths: seq<Path>, at: Time, path: Path,
      env: VisitEnv)
    requires var started := Step(w, Start(config, now, WORKING));
             && Polls(started, path) && path in paths && CursorIn(started, path) != ZERO_TIME
             && env.opens && env.pages != [] && env.pages[0].readOk
             && Unread(env.pages[0].table, CursorIn(started, path)) == []
    ensures var w' := Step(Step(Step(w, Start(config, now, WORKING)), Seed(paths, at)), VisitDb(path, env));
            w'.log == w.log + if env.beat.checkedAt - at >= config.heartbeat
                then [Beat(path, env.beat.sendOk, env.beat.sentAt)] else []
  {
    var started := Step(w, Start(config, now, WORKING));
    StartSettings(w, config, now, WORKING);
    SeedsExactly(started, paths, at, path);
    IdlePollBeats(Step(started, Seed(paths, at)), path, env);
  }

  // ------------------------------------------------------------------ the replay latch

  predicate Completes(w: World, e: Event, path: Path) {
    e.VisitDb? && e.path == path && w.process.Some? && PassOf(w.process.value, path, e.env).end.Drained()
  }

  /** Replay passes of `path` that complete in a run. */
  function Completions(w: World, events: seq<Event>, path: Path): nat
    decreases |events|
  {
    if events == [] then 0
    else (if Completes(w, events[0], path) then 1 else 0) + Completions(Step(w, events[0]), events[1..], path)
  }

  function Latched(w: World, path: Path): nat {
    if w.process.Some? && path in w.process.value.replayed then 1 else 0
  }

  /** Within one process, the latch counts completed passes: at most one pass per database ever completes, and the
      latch is set exactly when one has. */
  lemma {:induction false} OnePassPerProcess(w: World, events: seq<Event>, path: Path)
    requires NoStart(events)
    ensures Latched(w, path) + Completions(w, events, path) <= 1
    ensures Run(w, events).process.Some?
        ==> Latched(w, path) + Completions(w, events, path) == Latched(Run(w, events), path)
    decreases |events|
  {
    if events != [] {
      assert events[0] in events && forall e | e in events[1..] :: e in events;
      var next := Step(w, events[0]);
      LatchStep(w, events[0], path);
      OnePassPerProcess(next, events[1..], path);
      if next.process.None? {
        StaysDown(next, events[1..]);
        NoneCompletesWhileDown(next, events[1..], path);
      }
    }
  }

  lemma LatchStep(w: World, e: Event, path: Path)
    requires !e.Start?
    ensures Completes(w, e, path) ==> Latched(w, path) == 0
    ensures Step(w, e).process.Some?
        ==> Latched(Step(w, e), path) == Latched(w, path) + if Completes(w, e, path) then 1 else 0
    ensures Step(w, e).process.None? ==> !Completes(w, e, path)
  {
    if e.VisitDb? && w.process.Some? && path in w.process.value.replayed {
      PollsDoNotDrain(w.process.value.settings, CursorOf(w.process.value.cursors, path), e.env.pages);
    }
  }

  lemma PollsDoNotDrain(s: Settings, cursor: Time, pages: seq<Page>)
    ensures !Loop(s, false, cursor, NO_ID, pages).end.Drained()
  {
  }

  lemma {:induction false} NoneCompletesWhileDown(w: World, events: seq<Event>, path: Path)
    requires w.process.None? && NoStart(events)
    ensures Completions(w, events, path) == 0
    decreases |events|
  {
    if events != [] {
      assert events[0] in events && forall e | e in events[1..] :: e in events;
      NoneCompletesWhileDown(Step(w, events[0]), events[1..], path);
    }
  }
}
