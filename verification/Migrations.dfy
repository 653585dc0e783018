/** Bringing a database to the newest schema, whether or not it says how far it has come. */
module Migrations {

  datatype TableName =
    | Users | Schools | Lessons | Progress | ChatMessages | AccessRequests | LessonAssignments | Slides | SlideReadings
    | UploadedFiles | FairProjects | FairSections | LoginThrottles | RefreshTokens | Reports | SecurityLogs | AiUsage

  datatype ColumnName =
    | Section | UserSections | SectionId | FailedLoginWindowStartedAt | CycleStartedAt | LastSuccessAt | SessionsValidFrom
    | CompletedAt | UnlockedOverride | LastSlide | SlideTotal | ProgramYear | LessonYear | Course | IctFairAccess | Detail

  /** A table, or a column that a later revision or the levelling adds to one. */
  datatype Feature = HasTable(table: TableName) | HasColumn(table: TableName, column: ColumnName)

  /** The two columns of a progress row that data revisions rewrite. */
  datatype Row = Row(watchdog: string, status: string)

  /** A revision changes the schema, or rewrites the values it names in the two columns. Its
      id is a number written in hexadecimal. */
  datatype Revision =
    | Adds(id: nat, features: set<Feature>)
    | Repairs(id: nat, watchdog: set<string>, status: set<string>)

  datatype Recorded = Unstamped | At(id: nat)

  datatype Database = Database(features: set<Feature>, rows: seq<Row>, stamp: Recorded)

  /** `Clash` is a table or column created where there is one already; `Lost` a recorded
      revision the chain does not have. */
  datatype Outcome = Done(db: Database) | Clash | Lost

  datatype Marker = Marker(id: nat, feature: Feature)

  // ----- one revision -----

  const ON_TRACK: string := "on_track"
  const IN_PROGRESS: string := "in_progress"

  function RepairRow(r: Revision, row: Row): Row
    requires r.Repairs?
  {
    Row(if row.watchdog in r.watchdog then ON_TRACK else row.watchdog, if row.status in r.status then IN_PROGRESS else row.status)
  }

  function RepairRows(r: Revision, rows: seq<Row>): (t: seq<Row>)
    requires r.Repairs?
    ensures |t| == |rows|
  {
    seq(|rows|, i requires 0 <= i < |rows| => RepairRow(r, rows[i]))
  }

  function Apply(r: Revision, db: Database): Outcome {
    if r.Repairs? then Done(db.(rows := RepairRows(r, db.rows), stamp := At(r.id)))
    else if r.features * db.features != {} then Clash
    else Done(db.(features := db.features + r.features, stamp := At(r.id)))
  }

  /** Every revision from the `i`th on, in order; the first clash ends it. */
  function Upgrade(chain: seq<Revision>, db: Database, i: nat): Outcome
    requires i <= |chain|
    decreases |chain| - i
  {
    if i == |chain| then Done(db)
    else
      match Apply(chain[i], db)
      case Done(next) => Upgrade(chain, next, i + 1)
      case _ => Clash
  }

  /** What the revisions from `i` up to `j` add. */
  function FeaturesOf(chain: seq<Revision>, i: nat, j: nat): set<Feature>
    requires i <= j <= |chain|
  {
    if i == j then {} else FeaturesOf(chain, i, j - 1) + if chain[j - 1].Adds? then chain[j - 1].features else {}
  }

  function RowsAfter(chain: seq<Revision>, rows: seq<Row>, i: nat, j: nat): seq<Row>
    requires i <= j <= |chain|
  {
    if i == j then rows
    else if chain[j - 1].Repairs? then RepairRows(chain[j - 1], RowsAfter(chain, rows, i, j - 1))
    else RowsAfter(chain, rows, i, j - 1)
  }

  // ----- the walk over the markers -----

  /** How many markers, from the first, are all there. */
  function Present(markers: seq<Marker>, features: set<Feature>): (n: nat)
    ensures n <= |markers|
    ensures forall i :: 0 <= i < n ==> Shown(markers[i].feature, features)
    ensures n < |markers| ==> !Shown(markers[n].feature, features)
  {
    if markers == [] then 0
    else
      var front := Present(markers[..|markers| - 1], features);
      if front == |markers| - 1 && Shown(markers[|markers| - 1].feature, features) then front + 1 else front
  }

  /** The newest revision the schema already satisfies; the first is the floor. */
  method LevelledRevision(markers: seq<Marker>, features: set<Feature>) returns (reached: nat)
    requires markers != []
    ensures reached == LevelledId(markers, features)
  {
    reached := markers[0].id;
    var i := 0;
    while i < |markers| && Shown(markers[i].feature, features)
      invariant 0 <= i <= |markers|
      invariant forall j :: 0 <= j < i ==> Shown(markers[j].feature, features)
      invariant reached == markers[if i == 0 then 0 else i - 1].id
    {
      reached := markers[i].id;
      i := i + 1;
    }
  }

  /** The table is there, and the column when the marker names one. */
  predicate Shown(f: Feature, features: set<Feature>) {
    f in features && HasTable(f.table) in features
  }

  function IndexOf(chain: seq<Revision>, id: nat): (i: nat)
    ensures i <= |chain|
    ensures i < |chain| ==> chain[i].id == id
    ensures i == |chain| ==> forall k :: 0 <= k < |chain| ==> chain[k].id != id
    decreases |chain|
  {
    if chain == [] then 0
    else
      var front := IndexOf(chain[..|chain| - 1], id);
      if front < |chain| - 1 then front
      else if chain[|chain| - 1].id == id then |chain| - 1
      else |chain|
  }

  /** Add the columns very old databases lack, to the tables that are there. */
  function EnsureAdded(extra: set<Feature>, features: set<Feature>): set<Feature> {
    features + set f | f in extra && f.HasColumn? && HasTable(f.table) in features
  }

  /** The bootstrap, for one database. */
  class Engine {
    const chain: seq<Revision>
    const markers: seq<Marker>
    const extra: set<Feature>
    var db: Database

    constructor (chain: seq<Revision>, markers: seq<Marker>, extra: set<Feature>, db: Database)
      ensures this.chain == chain && this.markers == markers && this.extra == extra && this.db == db
    {
      this.chain := chain;
      this.markers := markers;
      this.extra := extra;
      this.db := db;
    }

    /** Bring the database to head. A failure undoes the stamp and the revisions, but not the
        levelling before them, which is committed by itself. */
    method RunMigrations() returns (ok: bool)
      requires markers != []
      modifies this`db
      ensures var o := Migrated(chain, markers, extra, old(db));
        ok == o.Done? && db == if ok then o.db else old(db).(features := Levelled(extra, old(db)))
    {
      var was := db;
      if db.features != {} && db.stamp == Unstamped {
        db := db.(features := EnsureAdded(extra, db.features));
        was := db;
        var reached := LevelledRevision(markers, db.features);
        db := db.(stamp := At(reached));
      }
      var i := 0;
      if db.stamp.At? {
        i := IndexOf(chain, db.stamp.id);
        if i == |chain| {
          db := was;
          return false;
        }
        i := i + 1;
      }
      var o := Upgrade(chain, db, i);
      ok := o.Done?;
      db := if ok then o.db else was;
    }
  }

  /** The schema once the old columns are there, where no revision is recorded. */
  function Levelled(extra: set<Feature>, db: Database): set<Feature> {
    if db.features == {} || db.stamp != Unstamped then db.features else EnsureAdded(extra, db.features)
  }

  function LevelledId(markers: seq<Marker>, features: set<Feature>): nat
    requires markers != []
  {
    markers[if Present(markers, features) == 0 then 0 else Present(markers, features) - 1].id
  }

  predicate Known(chain: seq<Revision>, stamp: Recorded) {
    stamp == Unstamped || IndexOf(chain, stamp.id) < |chain|
  }

  function Next(chain: seq<Revision>, stamp: Recorded): (i: nat)
    requires Known(chain, stamp)
    ensures i <= |chain|
  {
    if stamp == Unstamped then 0 else IndexOf(chain, stamp.id) + 1
  }

  function Stamped(markers: seq<Marker>, extra: set<Feature>, db: Database): Database
    requires markers != []
  {
    if db.features == {} || db.stamp != Unstamped then db
    else db.(features := Levelled(extra, db), stamp := At(LevelledId(markers, Levelled(extra, db))))
  }

  /** The whole bootstrap: level and stamp where there is no stamp, then upgrade. */
  function Migrated(chain: seq<Revision>, markers: seq<Marker>, extra: set<Feature>, db: Database): Outcome
    requires markers != []
  {
    var level := Stamped(markers, extra, db);
    if Known(chain, level.stamp) then Upgrade(chain, level, Next(chain, level.stamp)) else Lost
  }
}
