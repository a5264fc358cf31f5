/** Databases do not disturb each other: a poll cycle acts on each database as if it were alone. */
module Isolation {
  import opened Clock
  import opened Rows
  import opened Reader
  import opened State
  import opened Protocol
  import opened Runs
  import opened Collector

  /** What a process knows about one database. */
  datatype Lane = Lane(cursor: Option<Time>, replayed: bool, lastSuccess: Option<Time>)

  function LaneOf(p: Process, path: Path): Lane {
    Lane(Lookup(p.cursors, path), path in p.replayed, Lookup(p.lastSuccess, path))
  }

  function Only<V>(m: map<Path, V>, path: Path): map<Path, V> {
    if path in m then map[path := m[path]] else map[]
  }

  /** A process that knows this database and no other. */
  function Alone(p: Process, path: Path): Process {
    Process(p.settings, Only(p.cursors, path), if path in p.replayed then {path} else {}, Only(p.lastSuccess, path),
        p.seeded)
  }

  function DeliveriesTo(log: seq<Delivery>, path: Path): seq<Delivery> {
    if log == [] then []
    else (if log[0].path == path then [log[0]] else []) + DeliveriesTo(log[1..], path)
  }

  lemma {:induction false} DeliveriesJoin(a: seq<Delivery>, b: seq<Delivery>, path: Path)
    ensures DeliveriesTo(a + b, path) == DeliveriesTo(a, path) + DeliveriesTo(b, path)
  {
    if a == [] {
      assert a + b == b;
    } else {
      var first := if a[0].path == path then [a[0]] else [];
      DeliveriesJoin(a[1..], b, path);
      var later, other := DeliveriesTo(a[1..], path), DeliveriesTo(b, path);
      assert DeliveriesTo(a + b, path) == first + (later + other) by {
        assert (a + b)[0] == a[0] && (a + b)[1..] == a[1..] + b;
      }
      assert first + (later + other) == (first + later) + other;
    }
  }

  lemma {:induction false} AllTo(log: seq<Delivery>, path: Path, q: Path)
    requires forall d | d in log :: d.path == path
    ensures DeliveriesTo(log, q) == if q == path then log else []
  {
    if log != [] {
      assert log[0] in log && forall d | d in log[1..] :: d in log;
      AllTo(log[1..], path, q);
      assert log == [log[0]] + log[1..];
    }
  }

  predicate DistinctPaths(dbs: seq<DbVisit>) {
    forall i, j | 0 <= i < j < |dbs| :: dbs[i].path != dbs[j].path
  }

  /** Visited alone, none of these databases lets the process die. Opening, reading, sending and saving may fail. */
  predicate NoneDies(p: Process, dbs: seq<DbVisit>) {
    forall d | d in dbs :: !PassOf(p, d.path, d.env).end.Died?
  }

  /** Knowing other databases changes nothing in a visit. */
  lemma VisitAlone(p: Process, file: StateFile, alone: StateFile, path: Path, env: VisitEnv)
    requires !PassOf(p, path, env).end.Died?
    ensures var v := VisitProcess(p, file, path, env);
            var u := VisitProcess(Alone(p, path), alone, path, env);
            v.process.Some? && u.process.Some? && v.deliveries == u.deliveries
            && LaneOf(v.process.value, path) == LaneOf(u.process.value, path)
  {
    assert PassOf(Alone(p, path), path, env) == PassOf(p, path, env);
    SettledAlone(p, file, alone, path, env, PassOf(p, path, env));
  }

  lemma SettledAlone(p: Process, file: StateFile, alone: StateFile, path: Path, env: VisitEnv, pass: Pass)
    requires !pass.end.Died?
    ensures var v := Settled(p, file, path, env, pass);
            var u := Settled(Alone(p, path), alone, path, env, pass);
            v.process.Some? && u.process.Some? && v.deliveries == u.deliveries
            && LaneOf(v.process.value, path) == LaneOf(u.process.value, path)
  {
  }

  /** A visit leaves every other database's lane as it was, delivers nothing to it, and keeps the settings. */
  lemma VisitSparesOthers(p: Process, file: StateFile, path: Path, env: VisitEnv, q: Path)
    requires q != path && !PassOf(p, path, env).end.Died?
    ensures var v := VisitProcess(p, file, path, env);
            v.process.Some? && LaneOf(v.process.value, q) == LaneOf(p, q) && DeliveriesTo(v.deliveries, q) == []
            && v.process.value.settings == p.settings && v.process.value.seeded == p.seeded
  {
    AllTo(VisitProcess(p, file, path, env).deliveries, path, q);
  }

  lemma SameLaneSameAlone(p: Process, u: Process, path: Path)
    requires LaneOf(p, path) == LaneOf(u, path) && p.settings == u.settings && p.seeded == u.seeded
    ensures Alone(p, path) == Alone(u, path)
  {
  }

  lemma SameLaneSamePass(p: Process, u: Process, path: Path, env: VisitEnv)
    requires LaneOf(p, path) == LaneOf(u, path) && p.settings == u.settings
    ensures PassOf(p, path, env) == PassOf(u, path, env)
  {
  }

  /** The visit of database `q` in a cycle, if it is in it, with the database on its own. */
  function OwnVisit(p: Process, dbs: seq<DbVisit>, q: Path): Visited {
    if dbs == [] then Visited(Some(Alone(p, q)), Absent, [])
    else if dbs[0].path == q then VisitProcess(Alone(p, q), Absent, q, dbs[0].env)
    else OwnVisit(p, dbs[1..], q)
  }

  /** As far as `q` goes, the cycle result `v` is the result `own` of a visit alone. */
  predicate ActsAlone(p: Process, v: Visited, own: Visited, q: Path) {
    && v.process.Some? && own.process.Some?
    && LaneOf(v.process.value, q) == LaneOf(own.process.value, q)
    && DeliveriesTo(v.deliveries, q) == own.deliveries
    && v.process.value.settings == p.settings && v.process.value.seeded == p.seeded
  }

  /** Isolation: a poll cycle changes what the process knows about each database, and delivers for it, exactly what a
      visit to it alone would, whatever happens to the other databases and in whatever place of the cycle. */
  lemma {:induction false} CycleActsAlone(p: Process, file: StateFile, dbs: seq<DbVisit>, q: Path)
    requires DistinctPaths(dbs) && NoneDies(p, dbs)
    ensures ActsAlone(p, VisitAll(Some(p), file, dbs), OwnVisit(p, dbs, q), q)
    decreases |dbs|
  {
    if dbs != [] {
      var v := VisitProcess(p, file, dbs[0].path, dbs[0].env);
      FirstSparesRest(p, file, dbs);
      CycleActsAlone(v.process.value, v.file, dbs[1..], q);
      FirstThenRest(p, file, dbs, VisitAll(v.process, v.file, dbs[1..]), q);
    }
  }

  lemma FirstThenRest(p: Process, file: StateFile, dbs: seq<DbVisit>, rest: Visited, q: Path)
    requires dbs != [] && DistinctPaths(dbs) && NoneDies(p, dbs)
    requires var v := VisitProcess(p, file, dbs[0].path, dbs[0].env);
             v.process.Some? && v.process.value.settings == p.settings && v.process.value.seeded == p.seeded
             && ActsAlone(v.process.value, rest, OwnVisit(v.process.value, dbs[1..], q), q)
    ensures var v := VisitProcess(p, file, dbs[0].path, dbs[0].env);
            ActsAlone(p, Visited(rest.process, rest.file, v.deliveries + rest.deliveries), OwnVisit(p, dbs, q), q)
  {
    var first := dbs[0];
    assert first in dbs;
    var v := VisitProcess(p, file, first.path, first.env);
    DeliveriesJoin(v.deliveries, rest.deliveries, q);
    if q == first.path {
      VisitAlone(p, file, Absent, q, first.env);
      AllTo(v.deliveries, q, q);
      AbsentFromCycle(v.process.value, dbs[1..], q);
    } else {
      VisitSparesOthers(p, file, first.path, first.env, q);
      OwnVisitByLane(p, v.process.value, dbs[1..], q);
    }
  }

  lemma FirstSparesRest(p: Process, file: StateFile, dbs: seq<DbVisit>)
    requires dbs != [] && DistinctPaths(dbs) && NoneDies(p, dbs)
    ensures var v := VisitProcess(p, file, dbs[0].path, dbs[0].env);
            v.process.Some? && NoneDies(v.process.value, dbs[1..]) && v.process.value.settings == p.settings
                && v.process.value.seeded == p.seeded
  {
    assert dbs[0] in dbs;
    var next := VisitProcess(p, file, dbs[0].path, dbs[0].env).process.value;
    forall d | d in dbs[1..] ensures !PassOf(next, d.path, d.env).end.Died? {
      assert d in dbs;
      VisitSparesOthers(p, file, dbs[0].path, dbs[0].env, d.path);
      SameLaneSamePass(p, next, d.path, d.env);
    }
  }

  lemma {:induction false} AbsentFromCycle(p: Process, dbs: seq<DbVisit>, q: Path)
    requires forall d | d in dbs :: d.path != q
    ensures OwnVisit(p, dbs, q) == Visited(Some(Alone(p, q)), Absent, [])
    ensures LaneOf(Alone(p, q), q) == LaneOf(p, q)
  {
    if dbs != [] {
      assert dbs[0] in dbs && forall d | d in dbs[1..] :: d in dbs;
      AbsentFromCycle(p, dbs[1..], q);
    }
  }

  lemma {:induction false} OwnVisitByLane(p: Process, u: Process, dbs: seq<DbVisit>, q: Path)
    requires LaneOf(p, q) == LaneOf(u, q) && p.settings == u.settings && p.seeded == u.seeded
    ensures OwnVisit(p, dbs, q) == OwnVisit(u, dbs, q)
  {
    SameLaneSameAlone(p, u, q);
    if dbs != [] { OwnVisitByLane(p, u, dbs[1..], q); }
  }

  lemma {:induction false} OwnVisitIs(p: Process, dbs: seq<DbVisit>, d: DbVisit)
    requires d in dbs && DistinctPaths(dbs)
    ensures OwnVisit(p, dbs, d.path) == VisitProcess(Alone(p, d.path), Absent, d.path, d.env)
  {
    if dbs[0] != d { OwnVisitIs(p, dbs[1..], d); }
  }

  /** The order of the databases in a cycle does not matter: any two orders of the same visits leave the process
      in the same state. */
  lemma OrderDoesNotMatter(p: Process, file: StateFile, dbs: seq<DbVisit>, dbs2: seq<DbVisit>)
    requires DistinctPaths(dbs) && DistinctPaths(dbs2) && NoneDies(p, dbs)
    requires forall d :: d in dbs <==> d in dbs2
    ensures VisitAll(Some(p), file, dbs).process == VisitAll(Some(p), file, dbs2).process
    ensures forall q ::
              DeliveriesTo(VisitAll(Some(p), file, dbs).deliveries, q)
              == DeliveriesTo(VisitAll(Some(p), file, dbs2).deliveries, q)
  {
    var one, two := VisitAll(Some(p), file, dbs), VisitAll(Some(p), file, dbs2);
    CycleActsAlone(p, file, dbs, "");
    CycleActsAlone(p, file, dbs2, "");
    forall q
      ensures LaneOf(one.process.value, q) == LaneOf(two.process.value, q)
      ensures DeliveriesTo(one.deliveries, q) == DeliveriesTo(two.deliveries, q)
    {
      CycleActsAlone(p, file, dbs, q);
      CycleActsAlone(p, file, dbs2, q);
      if d :| d in dbs && d.path == q {
        OwnVisitIs(p, dbs, d);
        OwnVisitIs(p, dbs2, d);
      } else {
        AbsentFromCycle(p, dbs, q);
        AbsentFromCycle(p, dbs2, q);
      }
    }
    LanesDetermineProcess(one.process.value, two.process.value);
  }

  lemma LanesDetermineProcess(p: Process, u: Process)
    requires p.settings == u.settings && p.seeded == u.seeded && forall q :: LaneOf(p, q) == LaneOf(u, q)
    ensures p == u
  {
    forall q
      ensures q in p.cursors <==> q in u.cursors
      ensures q in p.cursors ==> p.cursors[q] == u.cursors[q]
      ensures q in p.replayed <==> q in u.replayed
      ensures q in p.lastSuccess <==> q in u.lastSuccess
      ensures q in p.lastSuccess ==> p.lastSuccess[q] == u.lastSuccess[q]
    {
      assert LaneOf(p, q) == LaneOf(u, q);
    }
    assert p.cursors == u.cursors && p.replayed == u.replayed && p.lastSuccess == u.lastSuccess;
  }

  /** Seeding, too, acts on each database alone. */
  lemma SeedingActsAlone(p: Process, paths: seq<Path>, at: Time, q: Path)
    ensures LaneOf(Seeded(p, paths, at), q) == LaneOf(Seeded(Alone(p, q), if q in paths then [q] else [], at), q)
  {
  }

  // ------------------------------------------------------------------ the state file, which databases share

  /** A save that changed the file: how it went, and the cursors in memory at that time. */
  datatype Save = Save(outcome: SaveOutcome, cursors: map<Path, Time>)

  /** The last save of a cycle that changed the file. */
  function LastSave(p: Option<Process>, file: StateFile, dbs: seq<DbVisit>): Option<Save>
    decreases |dbs|
  {
    if p.None? || dbs == [] then None
    else
      var d, write := dbs[0], WriteOf(p.value, dbs[0].path, dbs[0].env);
      var v := VisitProcess(p.value, file, d.path, d.env);
      var own := if write.Some? && !d.env.save.Kept? then Some(Save(d.env.save, Stored(p.value.cursors, d.path, write)))
                 else None;
      Later(own, LastSave(v.process, v.file, dbs[1..]))
  }

  /** How the last save of a cycle went, whether it changed the file or not. */
  function LastOutcome(p: Option<Process>, file: StateFile, dbs: seq<DbVisit>): Option<SaveOutcome>
    decreases |dbs|
  {
    if p.None? || dbs == [] then None
    else
      var d := dbs[0];
      var v := VisitProcess(p.value, file, d.path, d.env);
      Later(if WriteOf(p.value, d.path, d.env).Some? then Some(d.env.save) else None,
          LastOutcome(v.process, v.file, dbs[1..]))
  }

  /** What a save leaves in the file for a database, its own or another. */
  function SavedCursor(save: Save, q: Path): Time {
    if save.outcome in {Written, WrittenUnreported} && Printable(CursorOf(save.cursors, q))
    then CursorOf(save.cursors, q) else ZERO_TIME
  }

  /** After a cycle the file is what the last save that changed it made of it, for every database, whether it was
      visited or not: a torn or emptied file loses all cursors, a written one holds the memory of that time. */
  lemma {:induction false} FileAfterCycle(p: Option<Process>, file: StateFile, dbs: seq<DbVisit>)
    ensures var v, last := VisitAll(p, file, dbs), LastSave(p, file, dbs);
            if last.None? then v.file == file
            else (v.file.Torn? <==> last.value.outcome.Mangled?)
                 && forall q :: FileCursor(v.file, q) == SavedCursor(last.value, q)
    decreases |dbs|
  {
    if p.Some? && dbs != [] {
      var d := dbs[0];
      var v := VisitProcess(p.value, file, d.path, d.env);
      VisitFile(p.value, file, d.path, d.env);
      LoadUndoesSave(file, Stored(p.value.cursors, d.path, WriteOf(p.value, d.path, d.env)));
      FileAfterCycle(v.process, v.file, dbs[1..]);
    }
  }

  /** If the last save of a cycle writes the file, it repairs every earlier failure, of whatever database: the file then
      holds the cursors in memory at the end of the cycle. */
  lemma {:induction false} LastWriteRepairs(p: Option<Process>, file: StateFile, dbs: seq<DbVisit>, q: Path)
    requires LastOutcome(p, file, dbs) in {Some(Written), Some(WrittenUnreported)}
    ensures var v := VisitAll(p, file, dbs);
            v.process.Some? ==>
              var c := CursorOf(v.process.value.cursors, q);
              FileCursor(v.file, q) == if Printable(c) then c else ZERO_TIME
    decreases |dbs|
  {
    var d := dbs[0];
    var v := VisitProcess(p.value, file, d.path, d.env);
    var rest := dbs[1..];
    VisitFile(p.value, file, d.path, d.env);
    if LastOutcome(v.process, v.file, rest).Some? {
      LastWriteRepairs(v.process, v.file, rest, q);
    } else {
      LoadUndoesSave(file, Stored(p.value.cursors, d.path, WriteOf(p.value, d.path, d.env)));
      NoWriteNoChange(v.process, v.file, rest);
    }
  }

  lemma {:induction false} NoWriteNoChange(p: Option<Process>, file: StateFile, dbs: seq<DbVisit>)
    requires LastOutcome(p, file, dbs).None?
    ensures var v := VisitAll(p, file, dbs);
            v.file == file && (p.Some? && v.process.Some? ==> v.process.value.cursors == p.value.cursors)
            && (v.process.Some? ==> p.Some?)
    decreases |dbs|
  {
    if p.Some? && dbs != [] {
      var d := dbs[0];
      var v := VisitProcess(p.value, file, d.path, d.env);
      VisitFile(p.value, file, d.path, d.env);
      NoWriteNoChange(v.process, v.file, dbs[1..]);
    }
  }
}
