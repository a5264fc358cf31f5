/** What a process starts with: which starts succeed, the replay window, the cursors, and the seeding of its first
    cycle. */
module Starts {
  import opened Clock
  import opened State
  import opened Protocol
  import opened Runs

  const WORKING := Boot(true, true, true)

  /** A configured replay that would end before it begins. One that reaches back to the very zero time has the full
      history as its window. */
  predicate EmptyWindow(config: Config, now: Time) {
    config.replay && config.replaySince > 0 && config.replayUntil != ZERO_TIME
    && config.replayUntil + config.replaySince <= now != ZERO_TIME + config.replaySince
  }

  /** A start succeeds exactly when the host provides what it needs, the state file is not torn, and a window that both
      of its bounds were set for is not empty. In particular it does with no state file, or an empty one. */
  lemma StartsExactly(w: World, config: Config, now: Time, boot: Boot)
    ensures Step(w, Start(config, now, boot)).process.Some?
       <==> boot == WORKING && !w.file.Torn? && !EmptyWindow(config, now)
  {
  }

  /** A replay reaches back its duration from the start, or over the full history. The other settings are those
      configured; nothing is latched, recorded or seeded. */
  lemma StartSettings(w: World, config: Config, now: Time, boot: Boot)
    requires Step(w, Start(config, now, boot)).process.Some?
    ensures var p := Step(w, Start(config, now, boot)).process.value;
            && p.settings.replay == config.replay && p.settings.until == config.replayUntil
            && p.settings.limit == config.batchLimit && p.settings.heartbeat == config.heartbeat
            && (config.replay && config.replaySince > 0 ==> p.settings.since + config.replaySince == now)
            && (!config.replay || config.replaySince <= 0 ==> p.settings.since == ZERO_TIME)
            && p.replayed == {} && p.lastSuccess == map[] && !p.seeded
  {
  }

  /** The entry of a database in a state file, if there is one and it parses. */
  function Entry(file: StateFile, path: Path): Option<Time> {
    if file.Entries? && path in file.stamps && file.stamps[path].Stamped? then Some(file.stamps[path].t) else None
  }

  /** Each database starts from its entry; without one, as with no file at all, from the zero time. */
  lemma StartCursors(w: World, config: Config, now: Time, boot: Boot, path: Path)
    requires Step(w, Start(config, now, boot)).process.Some?
    ensures var w' := Step(w, Start(config, now, boot));
            CursorIn(w', path) == match Entry(w.file, path) { case Some(t) => t case None => ZERO_TIME }
  {
  }

  /** On a fresh machine a process without replay does start, and polls every database from the beginning. */
  lemma FreshStart(config: Config, now: Time, path: Path)
    requires !config.replay
    ensures var w := Step(FRESH_WORLD, Start(config, now, WORKING)); Polls(w, path) && CursorIn(w, path) == ZERO_TIME
  {
  }

  /** The first cycle records a success for each database found that has a stored cursor, unless it has one already,
      and for no other; later cycles record none. */
  lemma SeedsExactly(w: World, paths: seq<Path>, at: Time, q: Path)
    requires w.process.Some?
    ensures var p, w' := w.process.value, Step(w, Seed(paths, at));
            && w'.process.Some? && w'.process.value.seeded
            && w'.process.value == p.(seeded := true, lastSuccess := w'.process.value.lastSuccess)
            && Lookup(w'.process.value.lastSuccess, q) ==
                 if q in p.lastSuccess then Some(p.lastSuccess[q])
                 else if !p.seeded && q in paths && CursorIn(w, q) != ZERO_TIME then Some(at)
                 else None
  {
  }
}
