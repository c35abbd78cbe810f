/** Starting the program: decide from the last recorded version whether to migrate, migrate the
    tables, and record the version at the very end.  The process may stop between any two steps. */
module Startup {
  import opened Versions

  // A version's text and its numeric tuple.
  datatype Version = Version(text: string, ns: seq<nat>)

  datatype Action = Migrated(t: nat, v: Version) | Recorded(v: Version)

  // What outlives a process: the version records in the order of their keys, and the history of
  // what was done to the database.
  datatype World = World(records: seq<Version>, log: seq<Action>)

  // How a start goes: the version built in, whether migration is forced on by hand, whether reading
  // the last record fails although there is one, whether adding the new one fails, which is only
  // logged, and before which step the process stops.
  datatype Start = Start(v: Version, forced: bool, readFails: bool, recordFails: bool, steps: nat)

  predicate NeedsMigration(w: World, s: Start, pad: char) {
    w.records == [] || s.readFails || Newer(s.v.text, w.records[|w.records| - 1].text, pad)
  }

  function Migrations(v: Version, lo: nat, hi: nat): seq<Action>
    requires lo <= hi
    decreases hi - lo
  {
    if lo == hi then [] else [Migrated(lo, v)] + Migrations(v, lo + 1, hi)
  }

  // The steps of a start over a database of this many tables; table 0 holds the version records.
  function Plan(w: World, s: Start, tables: nat, pad: char): seq<Action>
    requires tables > 0
  {
    var need := NeedsMigration(w, s, pad);
    (if need then [Migrated(0, s.v)] else []) +
    (if need || s.forced then Migrations(s.v, 1, tables) + [Recorded(s.v)] else [])
  }

  // How much of the plan is done; the record is its last step.
  function Completed(w: World, s: Start, tables: nat, pad: char): nat
    requires tables > 0
  {
    var plan := Plan(w, s, tables, pad);
    if s.recordFails && plan != [] && |plan| <= s.steps then |plan| - 1 else s.steps
  }

  ghost predicate RunsToEnd(w: World, s: Start, tables: nat, pad: char)
    requires tables > 0
  {
    |Plan(w, s, tables, pad)| <= Completed(w, s, tables, pad)
  }

  function After(w: World, s: Start, tables: nat, pad: char): World
    requires tables > 0
  {
    var plan, done := Plan(w, s, tables, pad), Completed(w, s, tables, pad);
    if done < |plan| then World(w.records, w.log + plan[..done])
    else World(w.records + (if plan == [] then [] else [s.v]), w.log + plan)
  }

  // The tables other than that of the versions, and the record, stopped after so many steps.
  function Finished(w: World, v: Version, tables: nat, recordFails: bool, steps: nat): World
    requires tables > 0
  {
    var rest := Migrations(v, 1, tables) + [Recorded(v)];
    var done := if recordFails && |rest| <= steps then |rest| - 1 else steps;
    if done < |rest| then World(w.records, w.log + rest[..done]) else World(w.records + [v], w.log + rest)
  }

  // The version table comes first, if it is migrated at all.
  lemma AfterInSteps(w: World, s: Start, tables: nat, pad: char)
    requires tables > 0
    ensures After(w, s, tables, pad) ==
            if NeedsMigration(w, s, pad)
            then if s.steps == 0 then w
                 else Finished(World(w.records, w.log + [Migrated(0, s.v)]), s.v, tables, s.recordFails, s.steps - 1)
            else if s.forced then Finished(w, s.v, tables, s.recordFails, s.steps)
            else w
  {
    var plan, done := Plan(w, s, tables, pad), Completed(w, s, tables, pad);
    var rest := Migrations(s.v, 1, tables) + [Recorded(s.v)];
    assert w.log + [] == w.log && w.records + [] == w.records;
    if NeedsMigration(w, s, pad) {
      assert plan == [Migrated(0, s.v)] + rest;
      if 0 < done <= |plan| {
        assert plan[..done] == [Migrated(0, s.v)] + rest[..done - 1];
        assert w.log + plan[..done] == w.log + [Migrated(0, s.v)] + rest[..done - 1];
      }
      assert w.log + plan == w.log + [Migrated(0, s.v)] + rest;
    } else if s.forced {
      assert plan == rest;
    }
  }

  /******* The code *******/

  class Database {
    var records: seq<Version>
    var log: seq<Action>

    method AutoMigrate(t: nat, v: Version)
      modifies this`log
      ensures log == old(log) + [Migrated(t, v)]
    {
      log := log + [Migrated(t, v)];
    }

    method Add(v: Version, fails: bool)
      modifies this
      ensures records == old(records) + if fails then [] else [v]
      ensures log == old(log) + if fails then [] else [Recorded(v)]
    {
      if fails {
        return;
      }
      records := records + [v];
      log := log + [Recorded(v)];
    }
  }

  class Process {
    const db: Database
    const v: Version
    const pad: char
    var enabledAutoMigrate: bool

    constructor (db: Database, v: Version, pad: char, forced: bool)
      ensures this.db == db && this.v == v && this.pad == pad && enabledAutoMigrate == forced
    {
      this.db, this.v, this.pad, enabledAutoMigrate := db, v, pad, forced;
    }

    method IsAutoMigrate(readFails: bool) returns (ok: bool)
      ensures ok == NeedsMigration(World(db.records, db.log), Start(v, false, readFails, false, 0), pad)
    {
      if db.records == [] || readFails {
        return true;
      }
      ok := CompareVersionFunc(v.text, db.records[|db.records| - 1].text, (a, b) => Greater(a, b), pad);
    }

    // Runs the start, unless it stops after the given number of steps on the database.
    method Run(tables: nat, readFails: bool, recordFails: bool, steps: nat)
      requires tables > 0
      modifies this, db
      ensures World(db.records, db.log) ==
              old(After(World(db.records, db.log), Start(v, enabledAutoMigrate, readFails, recordFails, steps),
                        tables, pad))
    {
      ghost var w, start := World(db.records, db.log), Start(v, enabledAutoMigrate, readFails, recordFails, steps);
      AfterInSteps(w, start, tables, pad);
      var isOK := IsAutoMigrate(readFails);
      var left := steps;
      if isOK {
        if left == 0 {
          return;
        }
        db.AutoMigrate(0, v);
        left := left - 1;
        enabledAutoMigrate := true;
      }
      if !enabledAutoMigrate {
        return;
      }
      MigrateTables(tables, recordFails, left);
    }

    // The other tables in turn, and the record once the last of them is done.
    method MigrateTables(tables: nat, recordFails: bool, steps: nat)
      requires tables > 0 && enabledAutoMigrate
      modifies db
      ensures World(db.records, db.log) == Finished(old(World(db.records, db.log)), v, tables, recordFails, steps)
    {
      ghost var rest := Migrations(v, 1, tables) + [Recorded(v)];
      MigrationsLength(v, 1, tables);
      for t := 1 to tables
        invariant db.records == old(db.records) && t - 1 <= steps
        invariant db.log == old(db.log) + rest[..t - 1]
      {
        if t - 1 == steps {
          return;
        }
        MigrationAt(v, 1, tables, t);
        assert rest[..t] == rest[..t - 1] + [Migrated(t, v)];
        db.AutoMigrate(t, v);
      }
      if tables - 1 == steps {
        return;
      }
      RecordVersion(recordFails);
    }

    // A failure is only logged.
    method RecordVersion(fails: bool)
      modifies db
      ensures db.records == old(db.records) + (if enabledAutoMigrate && !fails then [v] else [])
      ensures db.log == old(db.log) + (if enabledAutoMigrate && !fails then [Recorded(v)] else [])
    {
      if !enabledAutoMigrate {
        return;
      }
      db.Add(v, fails);
    }
  }

  lemma {:induction false} MigrationsLength(v: Version, lo: nat, hi: nat)
    requires lo <= hi
    ensures |Migrations(v, lo, hi)| == hi - lo
    decreases hi - lo
  {
    if lo < hi {
      MigrationsLength(v, lo + 1, hi);
    }
  }

  lemma {:induction false} MigrationAt(v: Version, lo: nat, hi: nat, t: nat)
    requires lo <= t < hi
    ensures |Migrations(v, lo, hi)| == hi - lo && Migrations(v, lo, hi)[t - lo] == Migrated(t, v)
    decreases t - lo
  {
    MigrationsLength(v, lo, hi);
    if lo < t {
      MigrationAt(v, lo + 1, hi, t);
    }
  }

  /******* Any sequence of starts *******/

  function AfterAll(w: World, starts: seq<Start>, tables: nat, pad: char): World
    requires tables > 0
    decreases |starts|
  {
    if starts == [] then w else AfterAll(After(w, starts[0], tables, pad), starts[1..], tables, pad)
  }

  // All versions are numeric and have one shape.
  ghost predicate Shaped(v: Version, widths: seq<nat>) {
    && Numeric(v.text, v.ns) && |v.ns| == |widths|
    && (forall i :: 0 <= i < |widths| ==> Width(v.ns[i]) == widths[i])
  }

  ghost predicate Proper(starts: seq<Start>, widths: seq<nat>) {
    forall s :: s in starts ==> Shaped(s.v, widths) && !s.forced && !s.readFails
  }

  ghost predicate Increasing(records: seq<Version>) {
    forall i, j :: 0 <= i < j < |records| ==> TupleGreater(records[j].ns, records[i].ns)
  }

  // Before each record stand the migrations of every table to that version, with nothing between.
  ghost predicate MigratedFirst(log: seq<Action>, tables: nat)
    requires tables > 0
  {
    forall i :: 0 <= i < |log| && log[i].Recorded? ==> PrecededByMigrations(log, i, tables)
  }

  ghost predicate PrecededByMigrations(log: seq<Action>, i: nat, tables: nat)
    requires i < |log| && log[i].Recorded?
  {
    tables <= i && forall t :: 0 <= t < tables ==> log[i - tables + t] == Migrated(t, log[i].v)
  }

  ghost predicate RecordsLogged(w: World) {
    forall r :: r in w.records ==> Recorded(r) in w.log
  }

  ghost predicate Inv(w: World, tables: nat, widths: seq<nat>)
    requires tables > 0
  {
    && Increasing(w.records) && MigratedFirst(w.log, tables) && RecordsLogged(w)
    && (forall r :: r in w.records ==> Shaped(r, widths))
  }

  lemma NeedsIffNewer(w: World, s: Start, pad: char, widths: seq<nat>)
    requires pad <= '0' && !s.readFails && Shaped(s.v, widths)
    requires forall r :: r in w.records ==> Shaped(r, widths)
    ensures NeedsMigration(w, s, pad) <==> w.records == [] || TupleGreater(s.v.ns, w.records[|w.records| - 1].ns)
  {
    if w.records != [] {
      var last := w.records[|w.records| - 1];
      assert last in w.records;
      NewerIffTupleGreater(s.v.text, last.text, s.v.ns, last.ns, pad);
    }
  }

  lemma PlanSteps(w: World, s: Start, tables: nat, pad: char)
    requires tables > 0 && !s.forced
    ensures var plan := Plan(w, s, tables, pad);
            if NeedsMigration(w, s, pad)
            then && |plan| == tables + 1 && plan[tables] == Recorded(s.v)
                 && forall t :: 0 <= t < tables ==> plan[t] == Migrated(t, s.v)
            else plan == []
  {
    if NeedsMigration(w, s, pad) {
      MigrationsLength(s.v, 1, tables);
      forall t | 1 <= t < tables ensures Plan(w, s, tables, pad)[t] == Migrated(t, s.v) {
        MigrationAt(s.v, 1, tables, t);
      }
    }
  }

  lemma StartKeepsLog(w: World, s: Start, tables: nat, pad: char)
    requires tables > 0 && !s.forced && MigratedFirst(w.log, tables) && RecordsLogged(w)
    ensures MigratedFirst(After(w, s, tables, pad).log, tables) && RecordsLogged(After(w, s, tables, pad))
  {
    PlanSteps(w, s, tables, pad);
    var w' := After(w, s, tables, pad);
    forall i | 0 <= i < |w'.log| && w'.log[i].Recorded? ensures PrecededByMigrations(w'.log, i, tables) {
      if i < |w.log| {
        assert PrecededByMigrations(w.log, i, tables);
      }
    }
    forall r | r in w'.records ensures Recorded(r) in w'.log {
      if r in w.records {
        assert Recorded(r) in w.log;
      } else {
        assert w'.log[|w.log| + tables] == Recorded(r);
      }
    }
  }

  lemma StartKeepsInv(w: World, s: Start, tables: nat, pad: char, widths: seq<nat>)
    requires tables > 0 && pad <= '0' && Inv(w, tables, widths)
    requires Shaped(s.v, widths) && !s.forced && !s.readFails
    ensures Inv(After(w, s, tables, pad), tables, widths)
  {
    StartKeepsLog(w, s, tables, pad);
    PlanSteps(w, s, tables, pad);
    NeedsIffNewer(w, s, pad, widths);
    var w' := After(w, s, tables, pad);
    if w'.records != w.records && w.records != [] {
      LastIsGreatest(w.records, s.v);
    }
  }

  lemma LastIsGreatest(records: seq<Version>, v: Version)
    requires Increasing(records) && records != [] && TupleGreater(v.ns, records[|records| - 1].ns)
    ensures Increasing(records + [v])
  {
    forall i | 0 <= i < |records| ensures TupleGreater(v.ns, records[i].ns) {
      if i < |records| - 1 {
        TupleTransitive(v.ns, records[|records| - 1].ns, records[i].ns);
      }
    }
  }

  // Over any sequence of starts, stopped wherever they may be, the recorded versions strictly
  // increase and each was recorded only when every table had been migrated to it.
  lemma {:induction false} StartsKeepInv(w: World, starts: seq<Start>, tables: nat, pad: char, widths: seq<nat>)
    requires tables > 0 && pad <= '0' && Inv(w, tables, widths) && Proper(starts, widths)
    ensures Inv(AfterAll(w, starts, tables, pad), tables, widths)
    decreases |starts|
  {
    if starts != [] {
      StartKeepsInv(w, starts[0], tables, pad, widths);
      StartsKeepInv(After(w, starts[0], tables, pad), starts[1..], tables, pad, widths);
    }
  }

  lemma EveryLifetime(starts: seq<Start>, tables: nat, pad: char, widths: seq<nat>)
    requires tables > 0 && pad <= '0' && Proper(starts, widths)
    ensures var w := AfterAll(World([], []), starts, tables, pad);
            Increasing(w.records) && MigratedFirst(w.log, tables) && RecordsLogged(w)
  {
    StartsKeepInv(World([], []), starts, tables, pad, widths);
  }

  // A start records its version exactly when it is newer than the last, or the first, and every step
  // was completed; otherwise the records stay as they were.
  lemma RecordsIff(w: World, s: Start, tables: nat, pad: char, widths: seq<nat>)
    requires tables > 0 && pad <= '0' && Inv(w, tables, widths) && Shaped(s.v, widths) && !s.forced && !s.readFails
    ensures After(w, s, tables, pad).records == w.records + [s.v] <==>
              && (w.records == [] || TupleGreater(s.v.ns, w.records[|w.records| - 1].ns))
              && tables + 1 <= s.steps && !s.recordFails
    ensures After(w, s, tables, pad).records != w.records + [s.v] ==> After(w, s, tables, pad).records == w.records
  {
    PlanSteps(w, s, tables, pad);
    NeedsIffNewer(w, s, pad, widths);
    assert w.records + [] == w.records && |w.records + [s.v]| == |w.records| + 1;
  }

  // A start that stopped before recording, or failed to record, leaves the next start of the same
  // version all its work.
  lemma StoppedStartMigratesAgain(w: World, s: Start, again: Start, tables: nat, pad: char)
    requires tables > 0 && !s.forced && !again.forced && !again.readFails && !s.readFails && again.v == s.v
    requires !RunsToEnd(w, s, tables, pad)
    ensures Plan(After(w, s, tables, pad), again, tables, pad) == Plan(w, s, tables, pad) != []
  {
  }

  // A start that ran to its end leaves a repeated start of the same version nothing to do.
  lemma RepeatedStartDoesNothing(w: World, s: Start, again: Start, tables: nat, pad: char, widths: seq<nat>)
    requires tables > 0 && pad <= '0' && Inv(w, tables, widths) && Shaped(s.v, widths)
    requires !s.forced && !s.readFails && !again.forced && !again.readFails && again.v == s.v
    requires RunsToEnd(w, s, tables, pad)
    ensures Plan(After(w, s, tables, pad), again, tables, pad) == []
    ensures After(After(w, s, tables, pad), again, tables, pad) == After(w, s, tables, pad)
  {
    var w' := After(w, s, tables, pad);
    StartKeepsInv(w, s, tables, pad, widths);
    PlanSteps(w, s, tables, pad);
    PlanSteps(w', again, tables, pad);
    NeedsIffNewer(w, s, pad, widths);
    NeedsIffNewer(w', again, pad, widths);
    TupleTotal(s.v.ns, s.v.ns);
    assert w'.log + [] == w'.log && w'.records + [] == w'.records;
  }

  // Exactly when a start keeps the records increasing, if migration may be forced or the last record
  // fail to be read: when it does not run to its end, too.
  lemma StartIncreasingIff(w: World, s: Start, tables: nat, pad: char, widths: seq<nat>)
    requires tables > 0 && pad <= '0' && Inv(w, tables, widths) && Shaped(s.v, widths)
    ensures Increasing(After(w, s, tables, pad).records) <==>
              || !RunsToEnd(w, s, tables, pad)
              || w.records == []
              || TupleGreater(s.v.ns, w.records[|w.records| - 1].ns)
              || (!s.forced && !s.readFails)
  {
    var w' := After(w, s, tables, pad);
    if w.records != [] && RunsToEnd(w, s, tables, pad) {
      var last := w.records[|w.records| - 1];
      if TupleGreater(s.v.ns, last.ns) {
        LastIsGreatest(w.records, s.v);
      } else if !s.forced && !s.readFails {
        NeedsIffNewer(w, s, pad, widths);
        PlanSteps(w, s, tables, pad);
      } else {
        assert Plan(w, s, tables, pad) != [];
        assert w'.records[|w.records| - 1] == last && w'.records[|w.records|] == s.v;
      }
    }
  }

  // A start that is only forced migrates every table but that of the versions, and records again.
  lemma ForcedStart(w: World, s: Start, tables: nat, pad: char, widths: seq<nat>)
    requires tables > 0 && pad <= '0' && Inv(w, tables, widths) && Shaped(s.v, widths)
    requires w.records != [] && !TupleGreater(s.v.ns, w.records[|w.records| - 1].ns)
    requires s.forced && !s.readFails && !s.recordFails && tables <= s.steps
    ensures var log := After(w, s, tables, pad).log;
            && |log| == |w.log| + tables && log[..|w.log|] == w.log && log[|log| - 1] == Recorded(s.v)
            && forall t :: 1 <= t < tables ==> log[|w.log| + t - 1] == Migrated(t, s.v)
  {
    NeedsIffNewer(w, s, pad, widths);
    ForcedPlan(w, s, tables, pad);
    assert After(w, s, tables, pad).log == w.log + Plan(w, s, tables, pad);
  }

  lemma ForcedPlan(w: World, s: Start, tables: nat, pad: char)
    requires tables > 0 && s.forced && !NeedsMigration(w, s, pad)
    ensures var plan := Plan(w, s, tables, pad);
            && |plan| == tables && plan[tables - 1] == Recorded(s.v)
            && forall t :: 1 <= t < tables ==> plan[t - 1] == Migrated(t, s.v)
  {
    MigrationsLength(s.v, 1, tables);
    forall t | 1 <= t < tables ensures Plan(w, s, tables, pad)[t - 1] == Migrated(t, s.v) {
      MigrationAt(s.v, 1, tables, t);
    }
  }
}
