/** The collector as an object that updates its fields in place, proved against the protocol's functions. */
module Collector {
  import opened Clock
  import opened Rows
  import opened Reader
  import opened State
  import opened Protocol

  /** One database of a poll cycle, and the surroundings of its visit. */
  datatype DbVisit = DbVisit(path: Path, env: VisitEnv)

  function PathsOf(dbs: seq<DbVisit>): seq<Path> {
    seq(|dbs|, i requires 0 <= i < |dbs| => dbs[i].path)
  }

  /** The databases of a cycle in turn; a process that dies visits no more of them. */
  function VisitAll(p: Option<Process>, file: StateFile, dbs: seq<DbVisit>): Visited
    decreases |dbs|
  {
    if p.None? || dbs == [] then Visited(p, file, [])
    else
      var v := VisitProcess(p.value, file, dbs[0].path, dbs[0].env);
      var rest := VisitAll(v.process, v.file, dbs[1..]);
      Visited(rest.process, rest.file, v.deliveries + rest.deliveries)
  }

  function CycleEvents(dbs: seq<DbVisit>): seq<Event> {
    if dbs == [] then [] else [VisitDb(dbs[0].path, dbs[0].env)] + CycleEvents(dbs[1..])
  }

  ghost predicate Matches(after: World, v: Visited, log0: seq<Delivery>) {
    after.process == v.process && after.file == v.file && after.log == log0 + v.deliveries
  }

  lemma MatchesJoin(after: World, log0: seq<Delivery>, v: Visited, rest: Visited)
    requires Matches(after, rest, log0 + v.deliveries)
    ensures Matches(after, Visited(rest.process, rest.file, v.deliveries + rest.deliveries), log0)
  {
    assert log0 + (v.deliveries + rest.deliveries) == (log0 + v.deliveries) + rest.deliveries;
  }

  lemma VisitStep(w: World, path: Path, env: VisitEnv, v: Visited)
    requires w.process.Some? && v == VisitProcess(w.process.value, w.file, path, env)
    ensures var next := Step(w, VisitDb(path, env));
            next.process == v.process && next.file == v.file && next.log == w.log + v.deliveries
  {
  }

  /** A poll cycle is a run of visits, so what holds of all runs holds of it. */
  lemma {:induction false} CycleIsRun(w: World, dbs: seq<DbVisit>)
    ensures Matches(Run(w, CycleEvents(dbs)), VisitAll(w.process, w.file, dbs), w.log)
    decreases |dbs|
  {
    if dbs != [] {
      var first, rest := VisitDb(dbs[0].path, dbs[0].env), CycleEvents(dbs[1..]);
      assert CycleEvents(dbs) == [first] + rest;
      assert Run(w, CycleEvents(dbs)) == Run(Step(w, first), rest);
      CycleIsRun(Step(w, first), dbs[1..]);
      if w.process.Some? {
        var v := VisitProcess(w.process.value, w.file, dbs[0].path, dbs[0].env);
        VisitStep(w, dbs[0].path, dbs[0].env, v);
        MatchesJoin(Run(Step(w, first), rest), w.log, v, VisitAll(v.process, v.file, dbs[1..]));
      }
    }
  }

  class Collector {
    const settings: Settings
    const tracker: Tracker
    var lastSuccess: map<Path, Time>
    var replayCompleted: set<Path>
    var seeded: bool
    ghost var log: seq<Delivery> // acknowledged batches and attempted heartbeats, oldest first

    ghost function View(): Process
      reads this, tracker
    {
      Process(settings, tracker.state, replayCompleted, lastSuccess, seeded)
    }

    constructor (settings: Settings, tracker: Tracker)
      ensures this.settings == settings && this.tracker == tracker && log == []
      ensures View() == Process(settings, tracker.state, {}, map[], false)
    {
      this.settings := settings;
      this.tracker := tracker;
      lastSuccess, replayCompleted, seeded := map[], {}, false;
      log := [];
    }

    /** One batch: send, then persist the cursor when asked to, then record the success. */
    method SendRecords(path: Path, records: seq<Row>, page: Page, save: SaveOutcome, persistCursor: bool)
        returns (ok: bool)
      requires records != []
      modifies this`lastSuccess, this`log, tracker`state, tracker.disk
      ensures !page.sendOk ==> !ok && log == old(log)
      ensures page.sendOk ==> log == old(log) + [Batch(path, records)] && (ok <==> !persistCursor || save.Written?)
      ensures !(page.sendOk && persistCursor) ==>
                tracker.state == old(tracker.state) && tracker.disk.file == old(tracker.disk.file)
      ensures page.sendOk && persistCursor ==>
                tracker.state == old(tracker.state)[path := Last(records).OccurredAt()]
                && tracker.disk.file == AfterSave(old(tracker.disk.file), tracker.state, save)
      ensures lastSuccess == if ok then old(lastSuccess)[path := page.ackedAt] else old(lastSuccess)
    {
      if !page.sendOk {
        return false;
      }
      log := log + [Batch(path, records)];
      if persistCursor {
        var saved := tracker.SetCursor(path, Last(records).OccurredAt(), save);
        if !saved {
          return false;
        }
      }
      lastSuccess := lastSuccess[path := page.ackedAt];
      return true;
    }

    method MaybeSendHeartbeat(path: Path, beat: BeatEnv)
      modifies this`lastSuccess, this`log
      ensures var due := path in old(lastSuccess) && beat.checkedAt - old(lastSuccess)[path] >= settings.heartbeat;
              && log == old(log) + (if due then [Beat(path, beat.sendOk, beat.sentAt)] else [])
              && lastSuccess == if due && beat.sendOk then old(lastSuccess)[path := beat.sentAt] else old(lastSuccess)
    {
      if path !in lastSuccess {
        return;
      }
      if beat.checkedAt - lastSuccess[path] < settings.heartbeat {
        return;
      }
      log := log + [Beat(path, beat.sendOk, beat.sentAt)];
      if !beat.sendOk {
        return;
      }
      lastSuccess := lastSuccess[path := beat.sentAt];
    }

    /** The end of a replay pass, on either of its two paths: the clamped cursor write and the latch. */
    method CompleteReplay(path: Path, cursor: Time, frontier: Time, save: SaveOutcome)
      modifies this`replayCompleted, tracker`state, tracker.disk
      ensures tracker.state == old(tracker.state)[path := CompletionCursor(settings, cursor, frontier)]
      ensures tracker.disk.file == AfterSave(old(tracker.disk.file), tracker.state, save)
      ensures replayCompleted == old(replayCompleted) + {path}
    {
      var finalCursor := frontier;
      if !IsZero(settings.until) && finalCursor > settings.until {
        finalCursor := settings.until;
      }
      if settings.since > cursor {
        finalCursor := cursor;
      } else if finalCursor < cursor {
        finalCursor := cursor;
      }
      var _ := tracker.SetCursor(path, finalCursor, save);
      replayCompleted := replayCompleted + {path};
    }

    /** One turn of the loop; the cursor of a poll is persisted right here. */
    method SendPage(path: Path, useReplay: bool, since: Time, lastID: Id, page: Page, save: SaveOutcome)
        returns (turn: Turn)
      modifies this`lastSuccess, this`log, tracker`state, tracker.disk
      ensures turn == TakeTurn(settings, useReplay, since, lastID, page)
      ensures log == old(log) + Batches(path, Listed(turn.ack))
      ensures var success := turn.ack.Some? && (useReplay || save.Written?);
              lastSuccess == Stored(old(lastSuccess), path, if success then Some(page.ackedAt) else None)
      ensures turn.end.Some? && turn.end.value.Polled? ==>
                tracker.state == old(tracker.state)[path := turn.end.value.last]
                && tracker.disk.file == AfterSave(old(tracker.disk.file), tracker.state, save)
      ensures !(turn.end.Some? && turn.end.value.Polled?) ==>
                tracker.state == old(tracker.state) && tracker.disk.file == old(tracker.disk.file)
    {
      var read;
      if useReplay {
        read := ReadRecordsWindow(page.table, since, settings.until, lastID, settings.limit);
      } else {
        read := ReadRecords(page.table, since, settings.limit);
      }
      assert log + [] == log;
      if !page.readOk || read.Err? {
        return Turn(None, Some(ReadFailed));
      }
      var records := read.value;
      if records == [] {
        return Turn(None, Some(if useReplay then DrainedEmpty(since) else Idle));
      }
      var _ := SendRecords(path, records, page, save, !useReplay);
      if !page.sendOk {
        return Turn(None, Some(SendFailed));
      }
      if !useReplay {
        return Turn(Some(records), Some(Polled(Last(records).OccurredAt())));
      }
      if |records| < settings.limit {
        return Turn(Some(records), Some(DrainedShort(Last(records).OccurredAt())));
      }
      return Turn(Some(records), None);
    }

    /** The read-and-send loop of a visit: page after page in a replay pass, one page in a poll. It reports
        how it ended and leaves the end-of-pass cursor writes to its caller. */
    method SendPages(path: Path, useReplay: bool, start: Time, env: VisitEnv) returns (end: End, ghost pass: Pass)
      modifies this`lastSuccess, this`log, tracker`state, tracker.disk
      ensures pass == Loop(settings, useReplay, start, NO_ID, env.pages) && end == pass.end
      ensures log == old(log) + Batches(path, pass.acks)
      ensures lastSuccess == AfterSends(old(lastSuccess), path, pass, env.save)
      ensures end.Polled? ==> tracker.state == old(tracker.state)[path := end.last]
                              && tracker.disk.file == AfterSave(old(tracker.disk.file), tracker.state, env.save)
      ensures !end.Polled? ==> tracker.state == old(tracker.state) && tracker.disk.file == old(tracker.disk.file)
    {
      var effectiveSince := start;
      var effectiveLastID := NO_ID;
      var coming := env.pages;
      pass := Loop(settings, useReplay, start, NO_ID, coming);
      ghost var log0, successes0 := log, lastSuccess;
      ghost var sent, ackedAt := [], None;
      assert sent + pass.acks == pass.acks && log0 + Batches(path, []) == log0;
      while coming != []
        invariant Continues(pass, sent, ackedAt, Loop(settings, useReplay, effectiveSince, effectiveLastID, coming))
        invariant ackedAt.Some? ==> useReplay
        invariant tracker.state == old(tracker.state) && tracker.disk.file == old(tracker.disk.file)
        invariant log == log0 + Batches(path, sent)
        invariant lastSuccess == Stored(successes0, path, ackedAt)
      {
        var turn := SendPage(path, useReplay, effectiveSince, effectiveLastID, coming[0], env.save);
        OneTurn(pass, sent, ackedAt, useReplay, effectiveSince, effectiveLastID, coming, turn);
        LogGrows(log0, path, sent, turn.ack);
        StoredTwice(successes0, path, ackedAt, coming[0].ackedAt);
        sent := sent + Listed(turn.ack);
        if turn.end.Some? {
          return turn.end.value, pass;
        }
        ackedAt := Some(coming[0].ackedAt);
        effectiveSince := Last(turn.ack.value).OccurredAt();
        effectiveLastID := Last(turn.ack.value).id;
        coming := coming[1..];
      }
      assert sent + [] == sent;
      return Died, pass;
    }

    /** The rest of a pass, after the batches `sent`, the last acknowledged at `ackedAt`. */
    static ghost predicate Continues(pass: Pass, sent: seq<seq<Row>>, ackedAt: Option<Time>, rest: Pass) {
      pass.acks == sent + rest.acks && pass.end == rest.end && pass.ackedAt == Later(ackedAt, rest.ackedAt)
    }

    lemma OneTurn(pass: Pass, sent: seq<seq<Row>>, ackedAt: Option<Time>,
                  replaying: bool, since: Time, afterId: Id, coming: seq<Page>, turn: Turn)
      requires coming != [] && turn == TakeTurn(settings, replaying, since, afterId, coming[0])
      requires Continues(pass, sent, ackedAt, Loop(settings, replaying, since, afterId, coming))
      ensures turn.end.Some? ==> pass.end == turn.end.value && pass.acks == sent + Listed(turn.ack)
                                 && pass.ackedAt == (if turn.ack.Some? then Some(coming[0].ackedAt) else ackedAt)
      ensures turn.end.None? ==> Continues(pass, sent + Listed(turn.ack), Some(coming[0].ackedAt),
                                           Loop(settings, replaying, Last(turn.ack.value).OccurredAt(),
                                               Last(turn.ack.value).id, coming[1..]))
    {
      if turn.end.None? {
        var rest := Loop(settings, replaying, Last(turn.ack.value).OccurredAt(), Last(turn.ack.value).id, coming[1..]);
        assert sent + ([turn.ack.value] + rest.acks) == (sent + [turn.ack.value]) + rest.acks;
      }
    }

    lemma LogGrows(log0: seq<Delivery>, path: Path, sent: seq<seq<Row>>, ack: Option<seq<Row>>)
      ensures log0 + Batches(path, sent) + Batches(path, Listed(ack)) == log0 + Batches(path, sent + Listed(ack))
    {
    }

    lemma StoredTwice(m: map<Path, Time>, path: Path, x: Option<Time>, y: Time)
      ensures Stored(Stored(m, path, x), path, Some(y)) == Stored(m, path, Some(y))
    {
    }

    /** The end of a visit whose pass is done: cursor write, latch and heartbeat. `was` is the process
        before the pass. */
    method EndVisit(path: Path, cursor: Time, useReplay: bool, end: End, env: VisitEnv,
                    ghost was: Process, ghost file: StateFile, ghost pass: Pass)
      requires end == pass.end && !end.Died?
      requires cursor == CursorOf(was.cursors, path) && useReplay == (settings.replay && path !in was.replayed)
      requires was.settings == settings && was.replayed == replayCompleted && was.seeded == seeded
      requires lastSuccess == AfterSends(was.lastSuccess, path, pass, env.save)
      requires !end.Polled? ==> tracker.state == was.cursors && tracker.disk.file == file
      requires end.Polled? ==>
                 tracker.state == was.cursors[path := end.last]
                 && tracker.disk.file == AfterSave(file, tracker.state, env.save)
      modifies this`lastSuccess, this`replayCompleted, this`log, tracker`state, tracker.disk
      ensures var v := Settled(was, file, path, env, pass);
              && View() == v.process.value
              && tracker.disk.file == v.file
              && log == old(log) + v.deliveries[|pass.acks|..]
    {
      match end {
        case SendFailed =>
          if useReplay {
            var rewindTo := settings.since;
            if rewindTo > cursor {
              rewindTo := cursor;
            }
            var _ := tracker.SetCursor(path, rewindTo, env.save);
          }
        case Idle =>
          MaybeSendHeartbeat(path, env.beat);
        case DrainedEmpty(frontier) =>
          CompleteReplay(path, cursor, frontier, env.save);
          MaybeSendHeartbeat(path, env.beat);
        case DrainedShort(frontier) =>
          CompleteReplay(path, cursor, frontier, env.save);
        case _ =>
      }
    }

    /** A visit to one database; `alive` is false when the process died during it. */
    method ProcessDatabase(path: Path, env: VisitEnv) returns (alive: bool)
      modifies this`lastSuccess, this`replayCompleted, this`log, tracker`state, tracker.disk
      ensures var v := old(VisitProcess(View(), tracker.disk.file, path, env));
              && alive == v.process.Some?
              && (alive ==> View() == v.process.value)
              && tracker.disk.file == v.file
              && log == old(log) + v.deliveries
    {
      ghost var was := View();
      ghost var file := tracker.disk.file;
      VisitParts(was, file, path, env);
      if !env.opens {
        assert log + [] == log;
        return true;
      }
      alive := OpenedVisit(path, env, was, file);
    }

    /** A visit to a database that opens, by the process `was`. */
    method OpenedVisit(path: Path, env: VisitEnv, ghost was: Process, ghost file: StateFile) returns (alive: bool)
      requires env.opens && was == View() && file == tracker.disk.file
      modifies this`lastSuccess, this`replayCompleted, this`log, tracker`state, tracker.disk
      ensures var pass := PassOf(was, path, env);
              var v := Settled(was, file, path, env, pass);
              && alive == !pass.end.Died?
              && (if alive then View() == v.process.value && tracker.disk.file == v.file else tracker.disk.file == file)
              && log == old(log) + Batches(path, pass.acks)
                        + if alive then v.deliveries[|pass.acks|..] else []
    {
      var cursor := tracker.GetCursor(path);
      var useReplay := settings.replay && path !in replayCompleted;
      var end, pass := SendPages(path, useReplay, if useReplay then settings.since else cursor, env);
      assert pass == PassOf(was, path, env);
      if end.Died? {
        assert log + [] == log;
        return false;
      }
      EndVisit(path, cursor, useReplay, end, env, was, file, pass);
      return true;
    }

    /** The deliveries of a visit are its batches and what its end adds; a visit that dies or does not open ends so. */
    static lemma VisitParts(was: Process, file: StateFile, path: Path, env: VisitEnv)
      ensures var pass, v := PassOf(was, path, env), VisitProcess(was, file, path, env);
              && v == Settled(was, file, path, env, pass)
              && (forall log: seq<Delivery> ::
                    log + Batches(path, pass.acks) + v.deliveries[|pass.acks|..] == log + v.deliveries)
              && (pass.end.Died? ==> v.process.None? && v.file == file && v.deliveries[|pass.acks|..] == [])
              && (!pass.end.Died? ==> v.process.Some?)
              && (!env.opens ==> v == Visited(Some(was), file, []))
    {
      var pass, v := PassOf(was, path, env), VisitProcess(was, file, path, env);
      assert v.deliveries == Batches(path, pass.acks) + v.deliveries[|pass.acks|..];
    }

    /** The first cycle that finds databases seeds lastSuccess for those with a persisted cursor. */
    method SeedOnce(dbs: seq<DbVisit>, at: Time)
      modifies this`lastSuccess, this`seeded
      ensures View() == Seeded(old(View()), PathsOf(dbs), at)
    {
      if seeded {
        return;
      }
      ghost var was := View();
      var paths := PathsOf(dbs);
      for k := 0 to |dbs|
        invariant lastSuccess.Keys == was.lastSuccess.Keys + set x | x in paths[..k]
            && !IsZero(CursorOf(was.cursors, x))
        invariant forall q | q in lastSuccess ::
            lastSuccess[q] == if q in was.lastSuccess then was.lastSuccess[q] else at
      {
        var cursor := tracker.GetCursor(dbs[k].path);
        assert paths[..k + 1] == paths[..k] + [dbs[k].path];
        if !IsZero(cursor) && dbs[k].path !in lastSuccess {
          lastSuccess := lastSuccess[dbs[k].path := at];
        }
      }
      assert paths[..|dbs|] == paths;
      seeded := true;
    }

    /** The databases in turn; one that fails is skipped, and a process that dies stops. */
    method VisitInTurn(dbs: seq<DbVisit>) returns (alive: bool, ghost v: Visited)
      modifies this`lastSuccess, this`replayCompleted, this`log, tracker`state, tracker.disk
      ensures v == VisitAll(Some(old(View())), old(tracker.disk.file), dbs)
      ensures alive == v.process.Some?
      ensures alive ==> View() == v.process.value
      ensures tracker.disk.file == v.file
      ensures log == old(log) + v.deliveries
    {
      var coming := dbs;
      ghost var log0, p, file := log, View(), tracker.disk.file;
      ghost var delivered: seq<Delivery> := [];
      v := VisitAll(Some(p), file, dbs);
      while coming != []
        invariant p == View() && file == tracker.disk.file
        invariant log == log0 + delivered
        invariant StillToVisit(v, p, file, coming, delivered)
      {
        ghost var next := VisitProcess(p, file, coming[0].path, coming[0].env);
        OneVisit(v, p, file, coming, delivered, log0);
        alive := ProcessDatabase(coming[0].path, coming[0].env);
        if !alive {
          return false, v;
        }
        delivered := delivered + next.deliveries;
        p, file := next.process.value, next.file;
        coming := coming[1..];
      }
      return true, v;
    }

    static ghost predicate StillToVisit(v: Visited, p: Process, file: StateFile, coming: seq<DbVisit>,
        delivered: seq<Delivery>) {
      var rest := VisitAll(Some(p), file, coming);
      v.process == rest.process && v.file == rest.file && v.deliveries == delivered + rest.deliveries
    }

    static lemma OneVisit(v: Visited, p: Process, file: StateFile, coming: seq<DbVisit>, delivered: seq<Delivery>,
        log0: seq<Delivery>)
      requires coming != [] && StillToVisit(v, p, file, coming, delivered)
      ensures var next := VisitProcess(p, file, coming[0].path, coming[0].env);
              && (log0 + delivered) + next.deliveries == log0 + (delivered + next.deliveries)
              && (next.process.None? ==>
                    v.process.None? && v.file == next.file && v.deliveries == delivered + next.deliveries)
              && (next.process.Some? ==>
                    StillToVisit(v, next.process.value, next.file, coming[1..], delivered + next.deliveries))
    {
      var next := VisitProcess(p, file, coming[0].path, coming[0].env);
      var rest := VisitAll(next.process, next.file, coming[1..]);
      assert delivered + (next.deliveries + rest.deliveries) == (delivered + next.deliveries) + rest.deliveries;
    }

    /** One poll cycle over the resolved databases. */
    method Iterate(dbs: seq<DbVisit>, seedAt: Time) returns (alive: bool, ghost v: Visited)
      modifies this`lastSuccess, this`replayCompleted, this`seeded, this`log, tracker`state, tracker.disk
      ensures v == if dbs == [] then Visited(Some(old(View())), old(tracker.disk.file), [])
                   else VisitAll(Some(Seeded(old(View()), PathsOf(dbs), seedAt)), old(tracker.disk.file), dbs)
      ensures alive == v.process.Some?
      ensures alive ==> View() == v.process.value
      ensures tracker.disk.file == v.file
      ensures log == old(log) + v.deliveries
    {
      if |dbs| == 0 {
        return true, Visited(Some(View()), tracker.disk.file, []);
      }
      SeedOnce(dbs, seedAt);
      alive, v := VisitInTurn(dbs);
    }
  }

  /** NewCollector: the window is validated before the state file is read, and the transport is opened last. */
  method NewCollector(config: Config, now: Time, boot: Boot, disk: Disk) returns (collector: Collector?)
    ensures (collector != null) == Started(disk.file, config, now, boot).Some?
    ensures collector != null ==>
              fresh(collector) && fresh(collector.tracker) && collector.tracker.disk == disk
              && collector.View() == Started(disk.file, config, now, boot).value
  {
    if !boot.hostname {
      return null;
    }
    var since := ZERO_TIME;
    if config.replay && config.replaySince > 0 {
      since := now - config.replaySince;
    }
    if config.replay && !IsZero(config.replayUntil) && !IsZero(since) && !(config.replayUntil > since) {
      return null;
    }
    var tracker, ok := Tracker.NewTracker(disk, boot.readable);
    if !ok {
      return null;
    }
    if !boot.transport {
      return null;
    }
    collector := new Collector(Settings(config.replay, since, config.replayUntil, config.batchLimit,
        config.heartbeat), tracker);
  }
}
