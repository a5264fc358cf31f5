/** The cursor tracker: a map in memory, and the state file it is loaded from and rewritten to. */
module State {
  import opened Clock
  import opened Reader

  // A source database path. The tracker's keys are hashes of paths; here a path is its own key.
  type Path = string

  // Four-digit years are the ones a printed timestamp can be parsed back from.
  const FIRST_PRINTABLE: Time := -62_167_219_200_000_000_000
  const LAST_PRINTABLE: Time := 253_402_300_799_999_999_999

  /** One value of the state file: a timestamp that parses, or text that does not. */
  datatype Stamp = Stamped(t: Time) | Malformed

  datatype StateFile =
    | Absent
    | Blank
    | Torn // not a JSON object
    | Entries(stamps: map<Path, Stamp>)

  /** What a save did to the file. Only `Written` is reported as success; the others are errors that
      left the file alone, wrote it in full, emptied it, or left half of it. */
  datatype SaveOutcome = Written | WrittenUnreported | Kept | Emptied | Mangled

  predicate Printable(t: Time) { FIRST_PRINTABLE <= t <= LAST_PRINTABLE }

  function Printed(t: Time): Stamp { if Printable(t) then Stamped(t) else Malformed }

  function Rendered(cursors: map<Path, Time>): map<Path, Stamp> {
    map p | p in cursors :: Printed(cursors[p])
  }

  function Parsed(stamps: map<Path, Stamp>): map<Path, Time> {
    map p | p in stamps && stamps[p].Stamped? :: stamps[p].t
  }

  function AfterSave(file: StateFile, cursors: map<Path, Time>, outcome: SaveOutcome): StateFile {
    match outcome
    case Written => Entries(Rendered(cursors))
    case WrittenUnreported => Entries(Rendered(cursors))
    case Kept => file
    case Emptied => Blank
    case Mangled => Torn
  }

  function Loaded(file: StateFile): Result<map<Path, Time>> {
    match file
    case Absent => Ok(map[])
    case Blank => Ok(map[])
    case Torn => Err
    case Entries(stamps) => Ok(Parsed(stamps))
  }

  /** A database without a recorded cursor has the zero time. */
  function CursorOf(cursors: map<Path, Time>, path: Path): Time {
    if path in cursors then cursors[path] else ZERO_TIME
  }

  /** The cursor a process started from this file would read; none starts from a torn file. */
  function FileCursor(file: StateFile, path: Path): Time {
    match Loaded(file)
    case Ok(cursors) => CursorOf(cursors, path)
    case Err => ZERO_TIME
  }

  /** Loading undoes saving exactly when every cursor prints with a four-digit year; any other
      cursor comes back as the zero time and never as a wrong instant. */
  lemma LoadUndoesSave(file: StateFile, cursors: map<Path, Time>)
    ensures Loaded(AfterSave(file, cursors, Written)) == Ok(cursors)
        <==> forall p | p in cursors :: Printable(cursors[p])
    ensures forall p :: FileCursor(AfterSave(file, cursors, Written), p)
                     == if Printable(CursorOf(cursors, p)) then CursorOf(cursors, p) else ZERO_TIME
  {
    var back := Parsed(Rendered(cursors));
    if p :| p in cursors && !Printable(cursors[p]) {
      assert p !in back;
    } else {
      assert back == cursors;
    }
  }

  /** Cursors between 1970 and the end of the year 9999, and zero cursors, survive a save. */
  lemma EpochCursorsSurvive(file: StateFile, cursors: map<Path, Time>)
    requires forall p | p in cursors ::
               cursors[p] == ZERO_TIME || 0 <= cursors[p] < 253_402_300_800 * 1_000_000_000
    ensures Loaded(AfterSave(file, cursors, Written)) == Ok(cursors)
  {
    LoadUndoesSave(file, cursors);
  }

  /** Whatever a save did, each database's cursor in the file is its old one, the one in memory, or zero. */
  lemma SaveNeverInvents(file: StateFile, cursors: map<Path, Time>, outcome: SaveOutcome, path: Path)
    ensures FileCursor(AfterSave(file, cursors, outcome), path)
         in {FileCursor(file, path), CursorOf(cursors, path), ZERO_TIME}
  {
  }

  /** The file itself, which outlives every process. */
  class Disk {
    var file: StateFile

    constructor ()
      ensures file == Absent
    {
      file := Absent;
    }
  }

  class Tracker {
    var state: map<Path, Time>
    const disk: Disk

    constructor (disk: Disk)
      ensures this.disk == disk && state == map[]
    {
      this.disk := disk;
      state := map[];
    }

    /** NewTracker: a missing or empty file starts fresh; a torn one, or one that cannot be read, is an error. */
    static method NewTracker(disk: Disk, readable: bool) returns (tracker: Tracker, ok: bool)
      ensures fresh(tracker) && tracker.disk == disk
      ensures ok == (readable && Loaded(disk.file).Ok?)
      ensures ok ==> tracker.state == Loaded(disk.file).value
    {
      tracker := new Tracker(disk);
      if !readable {
        return tracker, false;
      }
      if disk.file.Absent? {
        return tracker, true;
      }
      ok := tracker.Load();
    }

    method Load() returns (ok: bool)
      requires state == map[] && !disk.file.Absent?
      modifies this`state
      ensures ok == Loaded(disk.file).Ok?
      ensures ok ==> state == Loaded(disk.file).value
    {
      match disk.file {
        case Blank => return true;
        case Torn => return false;
        case Entries(raw) =>
          var rest := raw.Keys;
          while rest != {}
            invariant rest <= raw.Keys
            invariant state == map p | p in raw && p !in rest && raw[p].Stamped? :: raw[p].t
          {
            var hash :| hash in rest;
            if raw[hash].Stamped? {
              state := state[hash := raw[hash].t];
            }
            rest := rest - {hash};
          }
          return true;
      }
    }

    method GetCursor(path: Path) returns (cursor: Time)
      ensures cursor == CursorOf(state, path)
    {
      if path !in state {
        return ZERO_TIME;
      }
      return state[path];
    }

    /** Memory changes before the save can fail. */
    method SetCursor(path: Path, cursor: Time, outcome: SaveOutcome) returns (ok: bool)
      modifies this`state, disk
      ensures state == old(state)[path := cursor]
      ensures disk.file == AfterSave(old(disk.file), state, outcome)
      ensures ok == outcome.Written?
    {
      state := state[path := cursor];
      ok := Save(outcome);
    }

    method Save(outcome: SaveOutcome) returns (ok: bool)
      modifies disk
      ensures disk.file == AfterSave(old(disk.file), state, outcome)
      ensures ok == outcome.Written?
    {
      var raw: map<Path, Stamp> := map[];
      var rest := state.Keys;
      while rest != {}
        invariant rest <= state.Keys
        invariant raw == map p | p in state && p !in rest :: Printed(state[p])
      {
        var hash :| hash in rest;
        raw := raw[hash := Printed(state[hash])];
        rest := rest - {hash};
      }
      match outcome {
        case Written => disk.file := Entries(raw);
        case WrittenUnreported => disk.file := Entries(raw);
        case Kept =>
        case Emptied => disk.file := Blank;
        case Mangled => disk.file := Torn;
      }
      return outcome.Written?;
    }
  }
}
