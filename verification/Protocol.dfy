/** The delivery protocol as a state machine: one visit to a source database (a poll or a replay pass),
    and runs of processes over any number of databases. Everything outside the collector (the rows a
    read sees, whether a send is acknowledged, what a save does to the file, clocks) is an input. */
module Protocol {
  import opened Clock
  import opened Rows
  import opened Reader
  import opened State

  datatype Option<+T> = None | Some(value: T)

  type PageLimit = n: nat | n > 0 witness 1

  // ------------------------------------------------------------------ configuration

  datatype Config = Config(replay: bool, replaySince: Duration, replayUntil: Time, batchLimit: PageLimit,
                           heartbeat: Duration)

  datatype Settings = Settings(replay: bool, since: Time, until: Time, limit: PageLimit, heartbeat: Duration)

  /** The replay start of a process started at `now`: the zero time (full history) unless a positive
      duration is configured. */
  function ReplayStart(c: Config, now: Time): Time {
    if c.replay && c.replaySince > 0 then now - c.replaySince else ZERO_TIME
  }

  /** Startup refuses a window that ends before it begins. */
  function Configured(c: Config, now: Time): Result<Settings> {
    var since := ReplayStart(c, now);
    if c.replay && !IsZero(c.replayUntil) && !IsZero(since) && !(c.replayUntil > since) then Err
    else Ok(Settings(c.replay, since, c.replayUntil, c.batchLimit, c.heartbeat))
  }

  // ------------------------------------------------------------------ one visit

  /** What happens around one page: the table the read sees, whether the read works, whether the send is
      acknowledged, and the clock just after. */
  datatype Page = Page(table: Table, readOk: bool, sendOk: bool, ackedAt: Time)

  datatype BeatEnv = BeatEnv(checkedAt: Time, sendOk: bool, sentAt: Time)

  /** The surroundings of one visit. When the pages run out the process dies before the next read. A death later in
      the visit is the visit followed by a Crash: dying before a save is a save that leaves the file as it was. */
  datatype VisitEnv = VisitEnv(opens: bool, pages: seq<Page>, save: SaveOutcome, beat: BeatEnv)

  datatype End =
    | Died
    | OpenFailed
    | ReadFailed
    | SendFailed
    | Idle                        // a poll found no rows
    | Polled(last: Time)          // a poll delivered one page
    | DrainedEmpty(frontier: Time) // a replay pass ended on an empty page
    | DrainedShort(frontier: Time) // a replay pass ended on a page below the limit
  {
    predicate Drained() { DrainedEmpty? || DrainedShort? }
  }

  /** The acknowledged batches, how the pass ended, the pages read, and the clock after the last acknowledgement. */
  datatype Pass = Pass(acks: seq<seq<Row>>, end: End, pages: nat, ackedAt: Option<Time>)

  /** One turn of the read-and-send loop: the batch it got acknowledged, and how it ended the pass, if it did. */
  datatype Turn = Turn(ack: Option<seq<Row>>, end: Option<End>)

  /** A replay pass reads its window from a composite position and goes on after a full page; a poll reads
      after the cursor, once. */
  function TakeTurn(s: Settings, replaying: bool, since: Time, afterId: Id, page: Page): (turn: Turn)
    ensures turn.ack.Some? ==> turn.ack.value != []
    ensures turn.end.None? ==> replaying && turn.ack.Some?
  {
    var read := if replaying then ReadRecordsWindow(page.table, since, s.until, afterId, s.limit)
                else ReadRecords(page.table, since, s.limit);
    if !page.readOk || read.Err? then Turn(None, Some(ReadFailed))
    else if read.value == [] then Turn(None, Some(if replaying then DrainedEmpty(since) else Idle))
    else if !page.sendOk then Turn(None, Some(SendFailed))
    else if !replaying then Turn(Some(read.value), Some(Polled(Last(read.value).OccurredAt())))
    else if |read.value| < s.limit then Turn(Some(read.value), Some(DrainedShort(Last(read.value).OccurredAt())))
    else Turn(Some(read.value), None)
  }

  function Later<T>(x: Option<T>, y: Option<T>): Option<T> { if y.Some? then y else x }

  function Listed<T>(x: Option<T>): seq<T> { if x.Some? then [x.value] else [] }

  /** The rest of a visit's loop from a position on. */
  function Loop(s: Settings, replaying: bool, since: Time, afterId: Id, pages: seq<Page>): (pass: Pass)
    ensures |pass.acks| <= pass.pages <= |pages| && [] !in pass.acks && (pass.ackedAt.None? <==> pass.acks == [])
    decreases |pages|
  {
    if pages == [] then Pass([], Died, 0, None)
    else
      var turn := TakeTurn(s, replaying, since, afterId, pages[0]);
      if turn.end.Some? then
        Pass(Listed(turn.ack), turn.end.value, 1, if turn.ack.Some? then Some(pages[0].ackedAt) else None)
      else
        var last := Last(turn.ack.value);
        var rest := Loop(s, replaying, last.OccurredAt(), last.id, pages[1..]);
        Pass([turn.ack.value] + rest.acks, rest.end, 1 + rest.pages, Later(Some(pages[0].ackedAt), rest.ackedAt))
  }

  function Visit(s: Settings, cursor: Time, replayed: bool, env: VisitEnv): (pass: Pass)
    ensures |pass.acks| <= pass.pages <= |env.pages| && [] !in pass.acks && (pass.ackedAt.None? <==> pass.acks == [])
  {
    if !env.opens then Pass([], OpenFailed, 0, None)
    else if s.replay && !replayed then Loop(s, true, s.since, NO_ID, env.pages)
    else Loop(s, false, cursor, NO_ID, env.pages)
  }

  /** The cursor a completed pass persists, given the one stored before it. */
  function CompletionCursor(s: Settings, cursor: Time, frontier: Time): Time {
    var clamped := if !IsZero(s.until) && frontier > s.until then s.until else frontier;
    if s.since > cursor then cursor
    else if clamped < cursor then cursor
    else clamped
  }

  /** The cursor a failed send rewinds to. */
  function RewindCursor(s: Settings, cursor: Time): Time {
    if s.since > cursor then cursor else s.since
  }

  /** The one cursor write of a visit, if any. */
  function CursorWrite(s: Settings, cursor: Time, replayed: bool, end: End): Option<Time> {
    match end
    case Polled(last) => Some(last)
    case DrainedEmpty(frontier) => Some(CompletionCursor(s, cursor, frontier))
    case DrainedShort(frontier) => Some(CompletionCursor(s, cursor, frontier))
    case SendFailed => if s.replay && !replayed then Some(RewindCursor(s, cursor)) else None
    case _ => None
  }

  // ------------------------------------------------------------------ one process

  datatype Delivery =
    | Batch(path: Path, rows: seq<Row>)
    | Beat(path: Path, ok: bool, at: Time)

  datatype Process = Process(settings: Settings, cursors: map<Path, Time>, replayed: set<Path>,
                             lastSuccess: map<Path, Time>, seeded: bool)

  function Lookup<V>(m: map<Path, V>, p: Path): Option<V> { if p in m then Some(m[p]) else None }

  function Stored<V>(m: map<Path, V>, p: Path, v: Option<V>): map<Path, V> {
    if v.Some? then m[p := v.value] else m
  }

  /** lastSuccess after the sends of a visit. In a poll a failed save counts as a failed send. */
  function AfterSends(successes: map<Path, Time>, path: Path, pass: Pass, save: SaveOutcome): map<Path, Time> {
    Stored(successes, path, if pass.end.Polled? && !save.Written? then None else pass.ackedAt)
  }

  /** A heartbeat goes out when a visit found no rows, some success is on record, and it is old enough. */
  predicate BeatDue(s: Settings, success: Option<Time>, end: End, beat: BeatEnv) {
    (end.Idle? || end.DrainedEmpty?) && success.Some? && beat.checkedAt - success.value >= s.heartbeat
  }

  function Batches(path: Path, acks: seq<seq<Row>>): seq<Delivery> {
    seq(|acks|, i requires 0 <= i < |acks| => Batch(path, acks[i]))
  }

  /** The result of a visit: the process (none if it died), the state file and what was delivered. */
  datatype Visited = Visited(process: Option<Process>, file: StateFile, deliveries: seq<Delivery>)

  function PassOf(p: Process, path: Path, env: VisitEnv): (pass: Pass)
    ensures |pass.acks| <= pass.pages <= |env.pages| && [] !in pass.acks && (pass.ackedAt.None? <==> pass.acks == [])
  {
    Visit(p.settings, CursorOf(p.cursors, path), path in p.replayed, env)
  }

  function VisitProcess(p: Process, file: StateFile, path: Path, env: VisitEnv): Visited {
    Settled(p, file, path, env, PassOf(p, path, env))
  }

  /** What a pass leaves behind. */
  function Settled(p: Process, file: StateFile, path: Path, env: VisitEnv, pass: Pass): Visited {
    var write := CursorWrite(p.settings, CursorOf(p.cursors, path), path in p.replayed, pass.end);
    var cursors := Stored(p.cursors, path, write);
    var successes := AfterSends(p.lastSuccess, path, pass, env.save);
    var due := BeatDue(p.settings, Lookup(successes, path), pass.end, env.beat);
    Visited(
      if pass.end.Died? then None
      else Some(p.(cursors := cursors,
                   replayed := if pass.end.Drained() then p.replayed + {path} else p.replayed,
                   lastSuccess := if due && env.beat.sendOk then successes[path := env.beat.sentAt] else successes)),
      if write.Some? then AfterSave(file, cursors, env.save) else file,
      Batches(path, pass.acks) + if due then [Beat(path, env.beat.sendOk, env.beat.sentAt)] else [])
  }

  /** Once per process, lastSuccess is seeded for every database found with a non-zero cursor. */
  function Seeded(p: Process, paths: seq<Path>, at: Time): Process {
    if p.seeded then p
    else
      p.(seeded := true,
         lastSuccess := map q | q in p.lastSuccess.Keys + (set x | x in paths && !IsZero(CursorOf(p.cursors, x)))
                            :: if q in p.lastSuccess then p.lastSuccess[q] else at)
  }

  // ------------------------------------------------------------------ runs

  datatype Event =
    | Start(config: Config, now: Time, boot: Boot)
    | Seed(paths: seq<Path>, at: Time)
    | VisitDb(path: Path, env: VisitEnv)
    | Change(changed: Path, table: Table) // the source database is written by its owner
    | Crash

  /** `tables` holds the rows of each database as last seen; `log` everything acknowledged or attempted
      as a heartbeat, oldest first, across all processes. */
  datatype World = World(file: StateFile, process: Option<Process>, tables: map<Path, Table>, log: seq<Delivery>)

  const FRESH_WORLD := World(Absent, None, map[], [])

  function TableOf(w: World, path: Path): Table {
    if path in w.tables then w.tables[path] else {}
  }

  /** What a start needs from its host: a hostname, a readable state file, and a gateway transport. */
  datatype Boot = Boot(hostname: bool, readable: bool, transport: bool)

  function Started(file: StateFile, config: Config, now: Time, boot: Boot): Option<Process> {
    if !boot.hostname || !boot.readable || !boot.transport then None
    else
      match (Configured(config, now), Loaded(file))
      case (Ok(settings), Ok(cursors)) => Some(Process(settings, cursors, {}, map[], false))
      case _ => None
  }

  /** The last table a pass has seen. */
  function LastSeen(before: Table, pages: seq<Page>, seen: nat): Table
    requires seen <= |pages|
  {
    if seen == 0 then before else pages[seen - 1].table
  }

  function Step(w: World, e: Event): World {
    match e
    case Start(config, now, boot) => w.(process := Started(w.file, config, now, boot))
    case Seed(paths, at) => if w.process.None? then w else w.(process := Some(Seeded(w.process.value, paths, at)))
    case VisitDb(path, env) =>
      if w.process.None? then w
      else
        var v := VisitProcess(w.process.value, w.file, path, env);
        var seen := LastSeen(TableOf(w, path), env.pages, PassOf(w.process.value, path, env).pages);
        World(v.file, v.process, w.tables[path := seen], w.log + v.deliveries)
    case Change(path, table) => w.(tables := w.tables[path := table])
    case Crash => w.(process := None)
  }

  function Run(w: World, events: seq<Event>): World
    decreases |events|
  {
    if events == [] then w else Run(Step(w, events[0]), events[1..])
  }

  /** Row `r` of `path` is in some acknowledged batch. */
  ghost predicate Delivered(log: seq<Delivery>, path: Path, r: Row) {
    exists i :: 0 <= i < |log| && log[i].Batch? && log[i].path == path && r in log[i].rows
  }
}
