/** The exclusion gate: databases that fail inspection are recorded on disk and inspected again only after
    an interval. */
module Exclusion {
  import opened Clock
  import opened State

  const DEFAULT_RECHECK: Duration := 10_800_000_000_000

  /** A gate file of one path: an entry with the time of the next recheck, or text that does not parse. */
  datatype GateFile = Entry(excludedAt: Time, nextRecheck: Time) | Corrupt

  /** How an access to a gate file goes: it works, it fails, or (for a write) it fails leaving half a file. */
  datatype Access = Works | Fails | Tears

  /** The surroundings of one look at a path in a poll cycle. */
  datatype Look = Look(checkedAt: Time, excludedRead: Access, recheckRead: Access, inspectOk: bool,
                       excludedAt: Time, write: Access, remove: Access, identityOk: bool)

  function RecheckEvery(recheck: Duration): Duration {
    if recheck <= 0 then DEFAULT_RECHECK else recheck
  }

  /** A path is opened unless a readable entry says that its recheck is not due yet. */
  predicate Inspects(files: map<Path, GateFile>, path: Path, look: Look) {
    !(look.excludedRead.Works? && path in files && files[path].Entry?
      && look.recheckRead.Works? && look.checkedAt < files[path].nextRecheck)
  }

  /** Only a path found excluded is removed from the gate when it passes. */
  predicate Excluded(files: map<Path, GateFile>, path: Path, look: Look) {
    look.excludedRead.Works? && path in files && files[path].Entry?
  }

  function AfterLook(files: map<Path, GateFile>, path: Path, look: Look, interval: Duration): map<Path, GateFile> {
    if !Inspects(files, path, look) then files
    else if !look.inspectOk then
      match look.write
      case Works => files[path := Entry(look.excludedAt, look.excludedAt + interval)]
      case Fails => files
      case Tears => files[path := Corrupt]
    else if Excluded(files, path, look) && look.remove.Works? then files - {path}
    else files
  }

  predicate Admitted(files: map<Path, GateFile>, path: Path, look: Look) {
    Inspects(files, path, look) && look.inspectOk && look.identityOk
  }

  /** A look at some path. The looks of all cycles of all processes form one sequence. */
  datatype Glance = Glance(path: Path, look: Look)

  function AfterGlance(files: map<Path, GateFile>, g: Glance, interval: Duration): map<Path, GateFile> {
    AfterLook(files, g.path, g.look, interval)
  }

  /** The paths of a cycle in turn. */
  function AfterGlances(files: map<Path, GateFile>, glances: seq<Glance>, interval: Duration): map<Path, GateFile>
    decreases |glances|
  {
    if glances == [] then files else AfterGlances(AfterGlance(files, glances[0], interval), glances[1..], interval)
  }

  function AdmittedPaths(files: map<Path, GateFile>, glances: seq<Glance>, interval: Duration): seq<Path>
    decreases |glances|
  {
    if glances == [] then []
    else
      (if Admitted(files, glances[0].path, glances[0].look) then [glances[0].path] else [])
      + AdmittedPaths(AfterGlance(files, glances[0], interval), glances[1..], interval)
  }

  /** The looks at which the database file is opened. */
  function Inspections(files: map<Path, GateFile>, glances: seq<Glance>, interval: Duration): seq<Glance>
    decreases |glances|
  {
    if glances == [] then []
    else
      (if Inspects(files, glances[0].path, glances[0].look) then [glances[0]] else [])
      + Inspections(AfterGlance(files, glances[0], interval), glances[1..], interval)
  }

  lemma NextJoins<T>(done: seq<T>, next: T, listed: bool, rest: seq<T>)
    ensures done + ((if listed then [next] else []) + rest) == (if listed then done + [next] else done) + rest
  {
    if !listed { assert [] + rest == rest; }
  }

  class Gate {
    var files: map<Path, GateFile>
    const recheckInterval: Duration

    constructor (files: map<Path, GateFile>, recheck: Duration)
      ensures this.files == files && recheckInterval == RecheckEvery(recheck)
    {
      this.files := files;
      recheckInterval := if recheck <= 0 then DEFAULT_RECHECK else recheck;
    }

    /** A corrupt file counts as not excluded and is left in place. */
    method IsExcluded(path: Path, read: Access) returns (excluded: bool, ok: bool)
      ensures ok == read.Works?
      ensures excluded == (ok && path in files && files[path].Entry?)
    {
      if !read.Works? {
        return false, false;
      }
      if path !in files {
        return false, true;
      }
      return files[path].Entry?, true;
    }

    method RecheckDue(path: Path, now: Time, read: Access) returns (due: bool, ok: bool)
      ensures ok == read.Works?
      ensures due == (ok && path in files && (files[path].Corrupt? || now >= files[path].nextRecheck))
    {
      if !read.Works? {
        return false, false;
      }
      if path !in files {
        return false, true;
      }
      match files[path] {
        case Corrupt => return true, true;
        case Entry(_, nextRecheck) => return !(now < nextRecheck), true;
      }
    }

    method Exclude(path: Path, now: Time, write: Access)
      modifies this`files
      ensures files == match write
                       case Works => old(files)[path := Entry(now, now + recheckInterval)]
                       case Fails => old(files)
                       case Tears => old(files)[path := Corrupt]
    {
      match write {
        case Works => files := files[path := Entry(now, now + recheckInterval)];
        case Fails =>
        case Tears => files := files[path := Corrupt];
      }
    }

    method Remove(path: Path, access: Access)
      modifies this`files
      ensures files == if access.Works? then old(files) - {path} else old(files)
    {
      if access.Works? {
        files := files - {path};
      }
    }

    /** One path of resolveDatabases; `inspected` says whether its database file was opened. */
    method Resolve(path: Path, look: Look) returns (admitted: bool, ghost inspected: bool)
      modifies this`files
      ensures files == AfterLook(old(files), path, look, recheckInterval)
      ensures admitted == Admitted(old(files), path, look)
      ensures inspected == Inspects(old(files), path, look)
    {
      inspected := false;
      var excluded, ok := IsExcluded(path, look.excludedRead);
      if excluded {
        var due, readable := RecheckDue(path, look.checkedAt, look.recheckRead);
        if readable && !due {
          return false, inspected;
        }
      }
      inspected := true;
      if !look.inspectOk {
        Exclude(path, look.excludedAt, look.write);
        return false, inspected;
      }
      if excluded {
        Remove(path, look.remove);
      }
      return look.identityOk, inspected;
    }

    /** resolveDatabases over the discovered paths; `inspected` lists the looks at which a file was opened. */
    method ResolveDatabases(glances: seq<Glance>) returns (dbs: seq<Path>, ghost inspected: seq<Glance>)
      modifies this`files
      ensures files == AfterGlances(old(files), glances, recheckInterval)
      ensures dbs == AdmittedPaths(old(files), glances, recheckInterval)
      ensures inspected == Inspections(old(files), glances, recheckInterval)
    {
      dbs, inspected := [], [];
      var coming := glances;
      while coming != []
        invariant AfterGlances(old(files), glances, recheckInterval) == AfterGlances(files, coming, recheckInterval)
        invariant AdmittedPaths(old(files), glances, recheckInterval)
            == dbs + AdmittedPaths(files, coming, recheckInterval)
        invariant Inspections(old(files), glances, recheckInterval)
            == inspected + Inspections(files, coming, recheckInterval)
      {
        var admitted, inspects := Resolve(coming[0].path, coming[0].look);
        NextJoins(dbs, coming[0].path, admitted, AdmittedPaths(files, coming[1..], recheckInterval));
        NextJoins(inspected, coming[0], inspects, Inspections(files, coming[1..], recheckInterval));
        if admitted {
          dbs := dbs + [coming[0].path];
        }
        inspected := if inspects then inspected + [coming[0]] else inspected;
        coming := coming[1..];
      }
    }
  }

  // ------------------------------------------------------------------ who is inspected and admitted

  /** The gate holds a path back: it has a readable entry whose recheck lies in the future. */
  predicate HeldBack(files: map<Path, GateFile>, path: Path, now: Time) {
    path in files && files[path].Entry? && now < files[path].nextRecheck
  }

  /** Where the gate's files can be read, a path is opened exactly when it is not held back: without an entry, with a
      corrupt one, or from its recheck time on. It is admitted exactly when it then passes and has an identity. */
  lemma InspectedExactly(files: map<Path, GateFile>, path: Path, look: Look, interval: Duration)
    requires look.excludedRead.Works? && look.recheckRead.Works?
    ensures Inspections(files, [Glance(path, look)], interval)
         == if HeldBack(files, path, look.checkedAt) then [] else [Glance(path, look)]
    ensures AdmittedPaths(files, [Glance(path, look)], interval)
         == if !HeldBack(files, path, look.checkedAt) && look.inspectOk && look.identityOk then [path] else []
  {
    assert [Glance(path, look)][1..] == [];
  }

  /** A gate file that cannot be read holds nothing back. */
  lemma UnreadableGateHoldsNothing(files: map<Path, GateFile>, path: Path, look: Look, interval: Duration)
    requires !look.excludedRead.Works? || !look.recheckRead.Works?
    ensures Inspections(files, [Glance(path, look)], interval) == [Glance(path, look)]
  {
    assert [Glance(path, look)][1..] == [];
  }

  /** What a look leaves: a path that fails gets an entry that holds it back for an interval, one that passes has none,
      and one held back keeps its own. No other path is touched. */
  lemma GateAfterLook(files: map<Path, GateFile>, path: Path, look: Look, interval: Duration, other: Path)
    requires look.excludedRead.Works? && look.recheckRead.Works? && look.write.Works? && look.remove.Works?
    ensures var after := AfterGlances(files, [Glance(path, look)], interval);
            && (other != path ==>
                  (other in after <==> other in files) && (other in files ==> after[other] == files[other]))
            && (HeldBack(files, path, look.checkedAt) ==> path in after && after[path] == files[path])
            && (!HeldBack(files, path, look.checkedAt) && !look.inspectOk ==>
                  path in after && after[path] == Entry(look.excludedAt, look.excludedAt + interval))
            && (!HeldBack(files, path, look.checkedAt) && look.inspectOk ==> path !in after || after[path].Corrupt?)
  {
    assert [Glance(path, look)][1..] == [];
    assert AfterGlances(files, [Glance(path, look)], interval) == AfterLook(files, path, look, interval);
  }

  /** An excluded path that would pass again is re-admitted at its first look from the recheck time on, and at none
      before: one configured interval after its exclusion, or three hours if none is configured. */
  lemma ReadmittedExactly(files: map<Path, GateFile>, path: Path, fails: Look, passes: Look, recheck: Duration)
    requires fails.excludedRead.Works? && fails.recheckRead.Works? && fails.write.Works? && fails.remove.Works?
    requires !HeldBack(files, path, fails.checkedAt) && !fails.inspectOk
    requires passes.excludedRead.Works? && passes.recheckRead.Works? && passes.inspectOk && passes.identityOk
    ensures var after := AfterGlances(files, [Glance(path, fails)], RecheckEvery(recheck));
            AdmittedPaths(after, [Glance(path, passes)], RecheckEvery(recheck)) == [path]
            <==> passes.checkedAt - fails.excludedAt >= if recheck > 0 then recheck else 10_800_000_000_000
  {
    GateAfterLook(files, path, fails, RecheckEvery(recheck), path);
    InspectedExactly(AfterGlances(files, [Glance(path, fails)], RecheckEvery(recheck)), path, passes,
        RecheckEvery(recheck));
  }

  // ------------------------------------------------------------------ rate of inspections

  function TimesOf(glances: seq<Glance>, path: Path): seq<Time> {
    if glances == [] then []
    else (if glances[0].path == path then [glances[0].look.checkedAt] else []) + TimesOf(glances[1..], path)
  }

  /** Times at which `path` is opened. */
  function InspectionTimes(files: map<Path, GateFile>, turns: seq<Glance>, path: Path, interval: Duration): seq<Time> {
    TimesOf(Inspections(files, turns, interval), path)
  }

  /** The inspections of two cycles are those of one sequence of looks. */
  lemma {:induction false} CyclesJoin(files: map<Path, GateFile>, cycle: seq<Glance>, later: seq<Glance>,
      interval: Duration)
    ensures AfterGlances(files, cycle + later, interval)
         == AfterGlances(AfterGlances(files, cycle, interval), later, interval)
    ensures Inspections(files, cycle + later, interval)
         == Inspections(files, cycle, interval) + Inspections(AfterGlances(files, cycle, interval), later, interval)
    decreases |cycle|
  {
    if cycle == [] {
      assert cycle + later == later;
    } else {
      assert (cycle + later)[0] == cycle[0] && (cycle + later)[1..] == cycle[1..] + later;
      var next := AfterGlance(files, cycle[0], interval);
      CyclesJoin(next, cycle[1..], later, interval);
      var first := if Inspects(files, cycle[0].path, cycle[0].look) then [cycle[0]] else [];
      var rest, more := Inspections(next, cycle[1..], interval),
          Inspections(AfterGlances(next, cycle[1..], interval), later, interval);
      assert (first + rest) + more == first + (rest + more);
    }
  }

  lemma FirstInspection(files: map<Path, GateFile>, turns: seq<Glance>, path: Path, interval: Duration)
    requires turns != []
    ensures InspectionTimes(files, turns, path, interval)
         == (if turns[0].path == path && Inspects(files, path, turns[0].look) then [turns[0].look.checkedAt] else [])
          + InspectionTimes(AfterGlance(files, turns[0], interval), turns[1..], path, interval)
  {
    var rest := Inspections(AfterGlance(files, turns[0], interval), turns[1..], interval);
    if Inspects(files, turns[0].path, turns[0].look) {
      assert ([turns[0]] + rest)[1..] == rest;
    } else {
      assert [] + rest == rest;
    }
  }

  /** Whenever `path` is looked at, the gate's file operations work and inspection fails; the clock does not go back. */
  predicate KeepsFailing(turns: seq<Glance>, path: Path, from: Time)
    decreases |turns|
  {
    turns == [] ||
    var t := turns[0].look;
    if turns[0].path != path then KeepsFailing(turns[1..], path, from)
    else t.excludedRead.Works? && t.recheckRead.Works? && t.write.Works? && !t.inspectOk
         && from <= t.checkedAt <= t.excludedAt && KeepsFailing(turns[1..], path, t.excludedAt)
  }

  lemma OthersAreSpared(files: map<Path, GateFile>, other: Path, look: Look, interval: Duration, path: Path)
    requires other != path
    ensures path in AfterLook(files, other, look, interval) <==> path in files
    ensures path in files ==> AfterLook(files, other, look, interval)[path] == files[path]
  {
  }

  /** Once an entry is there, the path is not opened before its recheck time. */
  lemma {:induction false} FirstInspectionIsDue(files: map<Path, GateFile>, turns: seq<Glance>, path: Path,
      interval: Duration, from: Time)
    requires KeepsFailing(turns, path, from) && path in files && files[path].Entry?
    ensures var times := InspectionTimes(files, turns, path, interval);
            times != [] ==> times[0] >= files[path].nextRecheck
    decreases |turns|
  {
    if turns != [] {
      var t := turns[0];
      var next := AfterLook(files, t.path, t.look, interval);
      FirstInspection(files, turns, path, interval);
      if t.path != path {
        OthersAreSpared(files, t.path, t.look, interval, path);
        FirstInspectionIsDue(next, turns[1..], path, interval, from);
      } else if !Inspects(files, path, t.look) {
        FirstInspectionIsDue(next, turns[1..], path, interval, t.look.excludedAt);
      }
    }
  }

  /** Inspections of a path that keeps failing are at least a recheck interval apart, whatever happens to
      other paths. */
  lemma {:induction false} InspectionsAreSpaced(files: map<Path, GateFile>, turns: seq<Glance>, path: Path,
      interval: Duration, from: Time)
    requires KeepsFailing(turns, path, from)
    ensures Spaced(InspectionTimes(files, turns, path, interval), interval)
    decreases |turns|
  {
    if turns != [] {
      var t := turns[0];
      var next := AfterLook(files, t.path, t.look, interval);
      var from' := if t.path == path then t.look.excludedAt else from;
      FirstInspection(files, turns, path, interval);
      InspectionsAreSpaced(next, turns[1..], path, interval, from');
      if t.path == path && Inspects(files, path, t.look) {
        FirstInspectionIsDue(next, turns[1..], path, interval, from');
        SpacedPrepend(t.look.checkedAt, InspectionTimes(next, turns[1..], path, interval), interval);
      } else {
        assert InspectionTimes(files, turns, path, interval) == InspectionTimes(next, turns[1..], path, interval);
      }
    }
  }

  /** The i-th to the j-th inspection of a persistently failing path span at least (j - i) recheck intervals, across
      cycles and restarts that keep the interval. */
  lemma InspectionRate(files: map<Path, GateFile>, turns: seq<Glance>, path: Path, interval: Duration, from: Time,
      i: nat, j: nat)
    requires KeepsFailing(turns, path, from) && i <= j < |InspectionTimes(files, turns, path, interval)|
    ensures var times := InspectionTimes(files, turns, path, interval);
            (j - i) * interval <= times[j] - times[i]
  {
    InspectionsAreSpaced(files, turns, path, interval, from);
    SpacedSpan(InspectionTimes(files, turns, path, interval), interval, i, j);
  }
}
