/** What one event of a run does to one database: its cursor in memory, its replay latch, and the rows delivered. */
module Runs {
  import opened Clock
  import opened Rows
  import opened Reader
  import opened State
  import opened Protocol

  /** The rows of a database in acknowledged batches, in the order of delivery. */
  function RowsTo(log: seq<Delivery>, path: Path): seq<Row> {
    if log == [] then []
    else (if log[0].Batch? && log[0].path == path then log[0].rows else []) + RowsTo(log[1..], path)
  }

  function CursorIn(w: World, path: Path): Time
    requires w.process.Some?
  {
    CursorOf(w.process.value.cursors, path)
  }

  /** The process has the replay pass of this database still to complete. */
  predicate Replays(w: World, path: Path) {
    w.process.Some? && w.process.value.settings.replay && path !in w.process.value.replayed
  }

  /** The process polls this database: it does not replay, or its pass is completed. */
  predicate Polls(w: World, path: Path) { w.process.Some? && !Replays(w, path) }

  predicate Visits(e: Event, path: Path) { e.VisitDb? && e.path == path }

  predicate NoStart(events: seq<Event>) { forall e | e in events :: !e.Start? }

  /** One process lives through the whole run. Visits to other databases, changes of tables and seeding are free. */
  predicate LivesThrough(w: World, events: seq<Event>) { NoStart(events) && Run(w, events).process.Some? }

  lemma {:induction false} StaysDown(w: World, events: seq<Event>)
    requires w.process.None? && NoStart(events)
    ensures Run(w, events).process.None?
    decreases |events|
  {
    if events != [] {
      assert events[0] in events && forall e | e in events[1..] :: e in events;
      StaysDown(Step(w, events[0]), events[1..]);
    }
  }

  /** A process that lives through a run lives after its first event, and through the rest. */
  lemma LivesOn(w: World, events: seq<Event>)
    requires events != [] && LivesThrough(w, events)
    ensures w.process.Some? && Step(w, events[0]).process.Some? && LivesThrough(Step(w, events[0]), events[1..])
    ensures !events[0].Start?
  {
    assert events[0] in events && forall e | e in events[1..] :: e in events;
    if w.process.None? { StaysDown(w, events); }
    if Step(w, events[0]).process.None? { StaysDown(Step(w, events[0]), events[1..]); }
  }

  lemma {:induction false} RunJoin(w: World, a: seq<Event>, b: seq<Event>)
    ensures Run(w, a + b) == Run(Run(w, a), b)
    decreases |a|
  {
    if a == [] {
      assert a + b == b;
    } else {
      assert (a + b)[0] == a[0] && (a + b)[1..] == a[1..] + b;
      RunJoin(Step(w, a[0]), a[1..], b);
    }
  }

  lemma {:induction false} RowsJoin(a: seq<Delivery>, b: seq<Delivery>, path: Path)
    ensures RowsTo(a + b, path) == RowsTo(a, path) + RowsTo(b, path)
  {
    if a == [] {
      assert a + b == b;
    } else {
      var first := if a[0].Batch? && a[0].path == path then a[0].rows else [];
      RowsJoin(a[1..], b, path);
      assert RowsTo(a + b, path) == first + RowsTo(a[1..] + b, path) by {
        assert (a + b)[0] == a[0] && (a + b)[1..] == a[1..] + b;
      }
      assert first + (RowsTo(a[1..], path) + RowsTo(b, path)) == (first + RowsTo(a[1..], path)) + RowsTo(b, path);
    }
  }

  lemma {:induction false} BatchRows(acks: seq<seq<Row>>, path: Path, q: Path)
    ensures RowsTo(Batches(path, acks), q) == if q == path then Concat(acks) else []
  {
    if acks != [] {
      assert Batches(path, acks)[1..] == Batches(path, acks[1..]);
      BatchRows(acks[1..], path, q);
    }
  }

  lemma NoRowsInBeats(beats: seq<Delivery>, path: Path)
    requires |beats| <= 1 && forall d | d in beats :: d.Beat?
    ensures RowsTo(beats, path) == []
  {
    if beats != [] { assert beats[0] in beats; }
  }

  /** The rows a visit delivers are those of its acknowledged batches. */
  lemma VisitRows(p: Process, file: StateFile, path: Path, env: VisitEnv, log: seq<Delivery>, q: Path)
    ensures RowsTo(log + VisitProcess(p, file, path, env).deliveries, q)
         == RowsTo(log, q) + if q == path then Concat(PassOf(p, path, env).acks) else []
  {
    var acks := PassOf(p, path, env).acks;
    var d := VisitProcess(p, file, path, env).deliveries;
    var beats := d[|acks|..];
    assert d == Batches(path, acks) + beats;
    RowsJoin(log, d, q);
    RowsJoin(Batches(path, acks), beats, q);
    BatchRows(acks, path, q);
    NoRowsInBeats(beats, q);
  }

  /** What a process knows of a database, and what it delivered to it, is the same in two states. */
  predicate SameFor(w: World, w': World, path: Path) {
    && w.process.Some? && w'.process.Some? && w'.process.value.settings == w.process.value.settings
    && CursorIn(w', path) == CursorIn(w, path)
    && (Replays(w', path) <==> Replays(w, path))
    && RowsTo(w'.log, path) == RowsTo(w.log, path)
  }

  /** Events of other databases change nothing here. */
  lemma OthersSpare(w: World, e: Event, path: Path)
    requires !Visits(e, path) && !e.Start? && w.process.Some? && Step(w, e).process.Some?
    ensures SameFor(w, Step(w, e), path)
  {
    if e.VisitDb? {
      VisitRows(w.process.value, w.file, e.path, e.env, w.log, path);
    }
  }

  /** A visit writes its one cursor, latches a completed pass, and delivers the batches of its pass. */
  lemma VisitActs(w: World, path: Path, env: VisitEnv)
    requires w.process.Some? && Step(w, VisitDb(path, env)).process.Some?
    ensures var p, w' := w.process.value, Step(w, VisitDb(path, env));
            var pass := PassOf(p, path, env);
            var write := CursorWrite(p.settings, CursorIn(w, path), path in p.replayed, pass.end);
            && w'.process.value.settings == p.settings && !pass.end.Died?
            && CursorIn(w', path) == (if write.Some? then write.value else CursorIn(w, path))
            && (path in w'.process.value.replayed <==> path in p.replayed || pass.end.Drained())
            && RowsTo(w'.log, path) == RowsTo(w.log, path) + Concat(pass.acks)
  {
    VisitRows(w.process.value, w.file, path, env, w.log, path);
  }

  /** The cursor a visit writes, if any. */
  function WriteOf(p: Process, path: Path, env: VisitEnv): Option<Time> {
    CursorWrite(p.settings, CursorOf(p.cursors, path), path in p.replayed, PassOf(p, path, env).end)
  }

  /** A visit leaves the file to its own save, and memory to its own write. */
  lemma VisitFile(p: Process, file: StateFile, path: Path, env: VisitEnv)
    ensures var v, write := VisitProcess(p, file, path, env), WriteOf(p, path, env);
            && v.file == (if write.Some? then AfterSave(file, Stored(p.cursors, path, write), env.save) else file)
            && (v.process.Some? ==> v.process.value.cursors == Stored(p.cursors, path, write))
            && (write.Some? ==> v.process.Some?)
  {
  }
}
