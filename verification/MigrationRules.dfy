/** The schema alone says where an unstamped database belongs in the chain, and only there
    does the upgrade come out whole. */
module MigrationRules {
  import opened Migrations

  // ----- what a sound chain is -----

  predicate DistinctIds(chain: seq<Revision>) {
    forall i, j :: 0 <= i < j < |chain| ==> chain[i].id != chain[j].id
  }

  predicate Disjoint(chain: seq<Revision>) {
    forall i, j :: 0 <= i < j < |chain| && chain[i].Adds? && chain[j].Adds? ==> chain[i].features !! chain[j].features
  }

  /** No repair rewrites what repairs write. */
  predicate Settling(chain: seq<Revision>) {
    forall i :: 0 <= i < |chain| && chain[i].Repairs? ==> ON_TRACK !in chain[i].watchdog && IN_PROGRESS !in chain[i].status
  }

  predicate ValidChain(chain: seq<Revision>) {
    && chain != [] && chain[0].Adds?
    && DistinctIds(chain) && Disjoint(chain) && Settling(chain)
    && forall i :: 0 <= i < |chain| && chain[i].Adds? ==> chain[i].features != {}
  }

  /** How many of the first `n` revisions change the schema. */
  function Rank(chain: seq<Revision>, n: nat): (r: nat)
    requires n <= |chain|
    ensures r <= n
  {
    if n == 0 then 0 else Rank(chain, n - 1) + if chain[n - 1].Adds? then 1 else 0
  }

  /** The markers are the revisions that change the schema, in order, each with something
      that revision adds. */
  predicate ValidMarkers(chain: seq<Revision>, markers: seq<Marker>) {
    && |markers| == Rank(chain, |chain|)
    && forall i :: 0 <= i < |chain| && chain[i].Adds? ==> Rank(chain, i) < |markers| && MarkerFor(chain, markers, i)
  }

  predicate MarkerFor(chain: seq<Revision>, markers: seq<Marker>, i: nat)
    requires i < |chain| && chain[i].Adds? && Rank(chain, i) < |markers|
  {
    && markers[Rank(chain, i)].id == chain[i].id
    && markers[Rank(chain, i)].feature in chain[i].features
    && HasTable(markers[Rank(chain, i)].feature.table) in FeaturesOf(chain, 0, i + 1)
  }

  /** The columns levelling adds are the first revision's, to tables of the first revision. */
  predicate ValidExtra(chain: seq<Revision>, extra: set<Feature>)
    requires chain != [] && chain[0].Adds?
  {
    extra <= chain[0].features && forall f :: f in extra ==> f.HasColumn? && HasTable(f.table) in chain[0].features
  }

  /** The last of the first `n` revisions that changes the schema. */
  function LastSchema(chain: seq<Revision>, n: nat): (i: nat)
    requires 1 <= n <= |chain| && chain[0].Adds?
    ensures i < n && chain[i].Adds? && forall j :: i < j < n ==> !chain[j].Adds?
  {
    if chain[n - 1].Adds? then n - 1 else LastSchema(chain, n - 1)
  }

  // ----- features of a prefix -----

  lemma {:induction false} FeaturesHave(chain: seq<Revision>, i: nat, j: nat, k: nat)
    requires i <= k < j <= |chain| && chain[k].Adds?
    ensures chain[k].features <= FeaturesOf(chain, i, j)
  {
    if k < j - 1 {
      FeaturesHave(chain, i, j - 1, k);
    }
  }

  lemma {:induction false} FeaturesApart(chain: seq<Revision>, i: nat, j: nat, k: nat)
    requires i <= j <= |chain| && k < |chain| && chain[k].Adds? && Disjoint(chain) && (k < i || k >= j)
    ensures chain[k].features !! FeaturesOf(chain, i, j)
  {
    if i < j {
      FeaturesApart(chain, i, j - 1, k);
      assert chain[j - 1].Adds? ==> chain[j - 1].features !! chain[k].features;
    }
  }

  lemma {:induction false} FeaturesJoin(chain: seq<Revision>, i: nat, j: nat, k: nat)
    requires i <= j <= k <= |chain|
    ensures FeaturesOf(chain, i, k) == FeaturesOf(chain, i, j) + FeaturesOf(chain, j, k)
  {
    if j < k {
      FeaturesJoin(chain, i, j, k - 1);
    }
  }

  // ----- the upgrade -----

  predicate NoClash(chain: seq<Revision>, features: set<Feature>, i: nat)
    requires i <= |chain|
  {
    forall j :: i <= j < |chain| && chain[j].Adds? ==> chain[j].features !! features
  }

  lemma {:induction false} RowsJoin(chain: seq<Revision>, rows: seq<Row>, i: nat, j: nat, k: nat)
    requires i <= j <= k <= |chain|
    ensures RowsAfter(chain, rows, i, k) == RowsAfter(chain, RowsAfter(chain, rows, i, j), j, k)
  {
    if j < k {
      RowsJoin(chain, rows, i, j, k - 1);
    }
  }

  /** An upgrade goes through exactly when nothing it adds is there yet. */
  lemma {:induction false} UpgradeGoesThrough(chain: seq<Revision>, db: Database, i: nat)
    requires i <= |chain| && Disjoint(chain)
    ensures Upgrade(chain, db, i).Done? <==> NoClash(chain, db.features, i)
    ensures Upgrade(chain, db, i).Done? ==>
      && Upgrade(chain, db, i).db.features == db.features + FeaturesOf(chain, i, |chain|)
      && Upgrade(chain, db, i).db.rows == RowsAfter(chain, db.rows, i, |chain|)
    decreases |chain| - i
  {
    if i < |chain| {
      if Apply(chain[i], db).Done? {
        var next := Apply(chain[i], db).db;
        UpgradeGoesThrough(chain, next, i + 1);
        FeaturesJoin(chain, i, i + 1, |chain|);
        RowsJoin(chain, db.rows, i, i + 1, |chain|);
        UpgradeStep(chain, db, next, i);
      } else {
        assert !(chain[i].features !! db.features);
      }
    }
  }

  /** An upgrade ends with the last revision recorded, unless there was none to run. */
  lemma {:induction false} UpgradeStamps(chain: seq<Revision>, db: Database, i: nat)
    requires i <= |chain|
    ensures Upgrade(chain, db, i).Done? ==>
      Upgrade(chain, db, i).db.stamp == if i < |chain| then At(chain[|chain| - 1].id) else db.stamp
    decreases |chain| - i
  {
    if i < |chain| && Apply(chain[i], db).Done? {
      UpgradeStamps(chain, Apply(chain[i], db).db, i + 1);
    }
  }

  lemma UpgradeStep(chain: seq<Revision>, db: Database, next: Database, i: nat)
    requires i < |chain| && Disjoint(chain) && Apply(chain[i], db) == Done(next)
    ensures NoClash(chain, next.features, i + 1) <==> NoClash(chain, db.features, i)
    ensures FeaturesOf(chain, i, i + 1) == if chain[i].Adds? then chain[i].features else {}
    ensures next.features == db.features + FeaturesOf(chain, i, i + 1)
    ensures next.rows == RowsAfter(chain, db.rows, i, i + 1)
  {
    if chain[i].Adds? {
      assert chain[i].features !! db.features by {
        assert chain[i].features * db.features == {};
        assert forall f :: f in chain[i].features && f in db.features ==> f in chain[i].features * db.features;
      }
    }
  }

  // ----- repairs run again -----

  predicate OnlyRepairs(chain: seq<Revision>, i: nat, j: nat)
    requires i <= j <= |chain|
  {
    forall k :: i <= k < j ==> chain[k].Repairs?
  }

  lemma {:induction false} RowsLength(chain: seq<Revision>, rows: seq<Row>, i: nat, j: nat)
    requires i <= j <= |chain|
    ensures |RowsAfter(chain, rows, i, j)| == |rows|
  {
    if i < j {
      RowsLength(chain, rows, i, j - 1);
    }
  }

  predicate Settles(r: Revision) {
    r.Repairs? && ON_TRACK !in r.watchdog && IN_PROGRESS !in r.status
  }

  lemma StaysRepaired(one: Revision, other: Revision, row: Row)
    requires Settles(one) && Settles(other)
    ensures RepairRow(one, RepairRow(one, row)) == RepairRow(one, row)
    ensures RepairRow(one, row) == row ==> RepairRow(one, RepairRow(other, row)) == RepairRow(other, row)
  {
  }

  /** Repairs that have run find nothing to do. */
  lemma {:induction false} RepairsSettle(chain: seq<Revision>, rows: seq<Row>, i: nat, j: nat, x: nat, k: nat)
    requires i <= k < j <= |chain| && OnlyRepairs(chain, i, j) && Settling(chain) && x < |rows|
    ensures |RowsAfter(chain, rows, i, j)| == |rows|
    ensures RepairRow(chain[k], RowsAfter(chain, rows, i, j)[x]) == RowsAfter(chain, rows, i, j)[x]
  {
    RowsLength(chain, rows, i, j - 1);
    var before := RowsAfter(chain, rows, i, j - 1);
    assert RowsAfter(chain, rows, i, j) == RepairRows(chain[j - 1], before);
    StaysRepaired(chain[k], chain[j - 1], before[x]);
    if k < j - 1 {
      RepairsSettle(chain, rows, i, j - 1, x, k);
    }
  }

  lemma {:induction false} RepairsAgain(chain: seq<Revision>, rows: seq<Row>, i: nat, j: nat, k: nat)
    requires i <= k <= j <= |chain| && OnlyRepairs(chain, i, j) && Settling(chain)
    ensures RowsAfter(chain, RowsAfter(chain, rows, i, j), i, k) == RowsAfter(chain, rows, i, j)
  {
    if i < k {
      var done := RowsAfter(chain, rows, i, j);
      RepairsAgain(chain, rows, i, j, k - 1);
      RowsLength(chain, rows, i, j);
      assert chain[k - 1].Repairs?;
      forall x | 0 <= x < |rows| ensures RepairRow(chain[k - 1], done[x]) == done[x] {
        RepairsSettle(chain, rows, i, j, x, k - 1);
      }
      assert RepairRows(chain[k - 1], done) == done;
    }
  }

  // ----- an unstamped database -----

  /** What the first `n` revisions build out of some rows, unstamped, and with some of the
      columns levelling knows about still missing. */
  function Built(chain: seq<Revision>, rows: seq<Row>, n: nat, missing: set<Feature>): Database
    requires n <= |chain|
  {
    Database(FeaturesOf(chain, 0, n) - missing, RowsAfter(chain, rows, 0, n), Unstamped)
  }

  lemma {:induction false} MarkersShown(chain: seq<Revision>, markers: seq<Marker>, n: nat, x: nat)
    requires ValidMarkers(chain, markers) && n <= |chain| && x < Rank(chain, n)
    ensures x < |markers| && Shown(markers[x].feature, FeaturesOf(chain, 0, n))
  {
    if chain[n - 1].Adds? && x == Rank(chain, n - 1) {
      assert MarkerFor(chain, markers, n - 1);
      FeaturesHave(chain, 0, n, n - 1);
    } else {
      MarkersShown(chain, markers, n - 1, x);
      FeaturesJoin(chain, 0, n - 1, n);
    }
  }

  lemma {:induction false} NextMarkerHidden(chain: seq<Revision>, markers: seq<Marker>, n: nat, m: nat)
    requires ValidMarkers(chain, markers) && Disjoint(chain) && n <= m <= |chain| && Rank(chain, n) < Rank(chain, m)
    ensures Rank(chain, n) < |markers| && !Shown(markers[Rank(chain, n)].feature, FeaturesOf(chain, 0, n))
  {
    if Rank(chain, m - 1) > Rank(chain, n) {
      NextMarkerHidden(chain, markers, n, m - 1);
    } else {
      RankGrows(chain, n, m - 1);
      assert MarkerFor(chain, markers, m - 1);
      FeaturesApart(chain, 0, n, m - 1);
    }
  }

  lemma {:induction false} RankGrows(chain: seq<Revision>, n: nat, m: nat)
    requires n <= m <= |chain|
    ensures Rank(chain, n) <= Rank(chain, m)
  {
    if n < m {
      RankGrows(chain, n, m - 1);
    }
  }

  lemma {:induction false} LastRank(chain: seq<Revision>, n: nat)
    requires 1 <= n <= |chain| && chain[0].Adds?
    ensures Rank(chain, n) == Rank(chain, LastSchema(chain, n)) + 1
  {
    if !chain[n - 1].Adds? {
      LastRank(chain, n - 1);
    }
  }

  /** The schema shows exactly the markers of the revisions that built it, so the walk stops
      at the last of them that changed it. */
  lemma LevelsExactly(chain: seq<Revision>, markers: seq<Marker>, n: nat)
    requires ValidChain(chain) && ValidMarkers(chain, markers) && 1 <= n <= |chain|
    ensures markers != [] && Present(markers, FeaturesOf(chain, 0, n)) == Rank(chain, n)
    ensures LevelledId(markers, FeaturesOf(chain, 0, n)) == chain[LastSchema(chain, n)].id
    ensures IndexOf(chain, chain[LastSchema(chain, n)].id) == LastSchema(chain, n)
  {
    var features, p := FeaturesOf(chain, 0, n), Present(markers, FeaturesOf(chain, 0, n));
    var last := LastSchema(chain, n);
    LastRank(chain, n);
    RankGrows(chain, n, |chain|);
    if p < Rank(chain, n) {
      MarkersShown(chain, markers, n, p);
    }
    if Rank(chain, n) < p {
      NextMarkerHidden(chain, markers, n, |chain|);
    }
    assert MarkerFor(chain, markers, last);
    var i := IndexOf(chain, chain[last].id);
    assert i < |chain|;
  }

  lemma LevelRestores(chain: seq<Revision>, extra: set<Feature>, n: nat, missing: set<Feature>)
    requires ValidChain(chain) && ValidExtra(chain, extra) && missing <= extra && 1 <= n <= |chain|
    ensures EnsureAdded(extra, FeaturesOf(chain, 0, n) - missing) == FeaturesOf(chain, 0, n)
    ensures FeaturesOf(chain, 0, n) - missing != {}
  {
  }

  lemma {:induction false} NoFeatures(chain: seq<Revision>, i: nat, j: nat)
    requires i <= j <= |chain| && OnlyRepairs(chain, i, j)
    ensures FeaturesOf(chain, i, j) == {}
  {
    if i < j {
      NoFeatures(chain, i, j - 1);
    }
  }

  lemma LevelledDatabase(chain: seq<Revision>, markers: seq<Marker>, extra: set<Feature>, rows: seq<Row>, n: nat, missing: set<Feature>)
    requires ValidChain(chain) && ValidMarkers(chain, markers) && ValidExtra(chain, extra)
    requires 1 <= n <= |chain| && missing <= extra
    ensures markers != []
    ensures Stamped(markers, extra, Built(chain, rows, n, missing))
      == Database(FeaturesOf(chain, 0, n), RowsAfter(chain, rows, 0, n), At(chain[LastSchema(chain, n)].id))
    ensures Known(chain, At(chain[LastSchema(chain, n)].id)) && Next(chain, At(chain[LastSchema(chain, n)].id)) == LastSchema(chain, n) + 1
  {
    LevelsExactly(chain, markers, n);
    LevelRestores(chain, extra, n, missing);
  }

  lemma FeaturesFromLevel(chain: seq<Revision>, n: nat)
    requires ValidChain(chain) && 1 <= n <= |chain|
    ensures NoClash(chain, FeaturesOf(chain, 0, n), LastSchema(chain, n) + 1)
    ensures FeaturesOf(chain, 0, n) + FeaturesOf(chain, LastSchema(chain, n) + 1, |chain|) == FeaturesOf(chain, 0, |chain|)
  {
    var last, end := LastSchema(chain, n), |chain|;
    forall j | last + 1 <= j < end && chain[j].Adds? ensures chain[j].features !! FeaturesOf(chain, 0, n) {
      FeaturesApart(chain, 0, n, j);
    }
    FeaturesJoin(chain, 0, n, end);
    FeaturesJoin(chain, last + 1, n, end);
    NoFeatures(chain, last + 1, n);
  }

  lemma RowsFromLevel(chain: seq<Revision>, rows: seq<Row>, n: nat)
    requires ValidChain(chain) && 1 <= n <= |chain|
    ensures RowsAfter(chain, RowsAfter(chain, rows, 0, n), LastSchema(chain, n) + 1, |chain|) == RowsAfter(chain, rows, 0, |chain|)
  {
    var last, end := LastSchema(chain, n), |chain|;
    RowsJoin(chain, rows, 0, last + 1, n);
    RepairsAgain(chain, RowsAfter(chain, rows, 0, last + 1), last + 1, n, n);
    RowsJoin(chain, RowsAfter(chain, rows, 0, n), last + 1, n, end);
    RowsJoin(chain, rows, 0, n, end);
  }

  /** Wherever in the chain an unstamped database was built, and whichever of the old columns
      it lacks, it is carried to the newest schema: no revision is missed, none that changes
      the schema is run again, and its rows end as if every revision had run in order. The last
      revision is recorded, and the next start-up changes nothing. */
  lemma UnstampedReachesHead(chain: seq<Revision>, markers: seq<Marker>, extra: set<Feature>, rows: seq<Row>, n: nat, missing: set<Feature>)
    requires ValidChain(chain) && ValidMarkers(chain, markers) && ValidExtra(chain, extra)
    requires 1 <= n <= |chain| && missing <= extra
    ensures markers != [] && Migrated(chain, markers, extra, Built(chain, rows, n, missing)).Done?
    ensures var db := Migrated(chain, markers, extra, Built(chain, rows, n, missing)).db;
      && db.features == FeaturesOf(chain, 0, |chain|) && db.rows == RowsAfter(chain, rows, 0, |chain|)
      && db.stamp == At(chain[|chain| - 1].id)
      && Migrated(chain, markers, extra, db) == Done(db)
  {
    LevelledDatabase(chain, markers, extra, rows, n, missing);
    var level := Stamped(markers, extra, Built(chain, rows, n, missing));
    UpgradeGoesThrough(chain, level, LastSchema(chain, n) + 1);
    UpgradeStamps(chain, level, LastSchema(chain, n) + 1);
    FeaturesFromLevel(chain, n);
    RowsFromLevel(chain, rows, n);
    AtHead(chain, markers, extra, Upgrade(chain, level, LastSchema(chain, n) + 1).db);
  }

  /** A start-up that finds the last revision recorded changes nothing. */
  lemma AtHead(chain: seq<Revision>, markers: seq<Marker>, extra: set<Feature>, db: Database)
    requires ValidChain(chain) && markers != [] && db.stamp == At(chain[|chain| - 1].id)
    ensures Migrated(chain, markers, extra, db) == Done(db)
  {
    var i := IndexOf(chain, chain[|chain| - 1].id);
    assert i < |chain| && chain[i].id == chain[|chain| - 1].id;
  }

  /** Levelling touches only a database that records nothing, and adds only columns, to tables
      that are there. */
  lemma LevellingAddsColumns(extra: set<Feature>, db: Database, f: Feature)
    ensures f in Levelled(extra, db) <==>
      f in db.features || (db.stamp == Unstamped && f in extra && f.HasColumn? && HasTable(f.table) in db.features)
  {
  }

  /** The first start-up on an empty database runs every revision there is. */
  lemma EmptyReachesHead(chain: seq<Revision>, markers: seq<Marker>, extra: set<Feature>, rows: seq<Row>)
    requires ValidChain(chain) && markers != []
    ensures Migrated(chain, markers, extra, Database({}, rows, Unstamped))
      == Done(Database(FeaturesOf(chain, 0, |chain|), RowsAfter(chain, rows, 0, |chain|), At(chain[|chain| - 1].id)))
  {
    var db := Database({}, rows, Unstamped);
    UpgradeGoesThrough(chain, db, 0);
    UpgradeStamps(chain, db, 0);
  }

  /** A database that records revision `k`, whatever kind it is, runs exactly the ones after it. */
  lemma StampedReachesHead(chain: seq<Revision>, markers: seq<Marker>, extra: set<Feature>, rows: seq<Row>, k: nat)
    requires ValidChain(chain) && markers != [] && k < |chain|
    ensures Migrated(chain, markers, extra, Built(chain, rows, k + 1, {}).(stamp := At(chain[k].id)))
      == Done(Database(FeaturesOf(chain, 0, |chain|), RowsAfter(chain, rows, 0, |chain|), At(chain[|chain| - 1].id)))
  {
    var db := Built(chain, rows, k + 1, {}).(stamp := At(chain[k].id));
    assert IndexOf(chain, chain[k].id) == k;
    ClashExactly(chain, k + 1, k);
    UpgradeGoesThrough(chain, db, k + 1);
    UpgradeStamps(chain, db, k + 1);
    FeaturesJoin(chain, 0, k + 1, |chain|);
    RowsJoin(chain, rows, 0, k + 1, |chain|);
    assert db.features == FeaturesOf(chain, 0, k + 1);
  }

  /** A start-up gives up for want of a revision exactly when the one recorded is not in the
      chain. */
  lemma LostExactly(chain: seq<Revision>, markers: seq<Marker>, extra: set<Feature>, db: Database)
    requires ValidChain(chain) && ValidMarkers(chain, markers) && markers != []
    ensures Migrated(chain, markers, extra, db) == Lost <==> db.stamp.At? && forall k :: 0 <= k < |chain| ==> chain[k].id != db.stamp.id
  {
    var level := Stamped(markers, extra, db);
    var x := Present(markers, Levelled(extra, db));
    var k := MarkedRevision(chain, markers, |chain|, if x == 0 then 0 else x - 1);
    assert chain[k].id == LevelledId(markers, Levelled(extra, db));
    if Known(chain, level.stamp) {
      NeverLost(chain, level, Next(chain, level.stamp));
    }
  }

  /** Every marker names a revision of the chain. */
  lemma {:induction false} MarkedRevision(chain: seq<Revision>, markers: seq<Marker>, n: nat, x: nat) returns (k: nat)
    requires ValidMarkers(chain, markers) && n <= |chain| && x < Rank(chain, n)
    ensures k < n && x < |markers| && markers[x].id == chain[k].id
  {
    if chain[n - 1].Adds? && x == Rank(chain, n - 1) {
      k := n - 1;
      assert MarkerFor(chain, markers, k);
    } else {
      k := MarkedRevision(chain, markers, n - 1, x);
    }
  }

  lemma {:induction false} NeverLost(chain: seq<Revision>, db: Database, i: nat)
    requires i <= |chain|
    ensures Upgrade(chain, db, i) != Lost
    decreases |chain| - i
  {
    if i < |chain| && Apply(chain[i], db).Done? {
      NeverLost(chain, Apply(chain[i], db).db, i + 1);
    }
  }

  lemma ClashExactly(chain: seq<Revision>, n: nat, k: nat)
    requires ValidChain(chain) && n <= |chain| && k < |chain|
    ensures NoClash(chain, FeaturesOf(chain, 0, n), k + 1) <==> forall j :: k < j < |chain| && chain[j].Adds? ==> j >= n
  {
    forall j | 0 <= j < |chain| && chain[j].Adds? ensures j < n <==> !(chain[j].features !! FeaturesOf(chain, 0, n)) {
      PlaceOf(chain, n, k, j);
    }
  }

  lemma WholeExactly(chain: seq<Revision>, n: nat, k: nat)
    requires ValidChain(chain) && n <= |chain| && k < |chain|
    requires FeaturesOf(chain, 0, n) + FeaturesOf(chain, k + 1, |chain|) == FeaturesOf(chain, 0, |chain|)
    ensures forall j :: 0 <= j <= k && chain[j].Adds? ==> j < n
  {
    forall j | 0 <= j <= k && chain[j].Adds? ensures j < n {
      PlaceOf(chain, n, k, j);
      var f :| f in chain[j].features;
      assert f in FeaturesOf(chain, 0, |chain|);
    }
  }

  /** Any other stamp is wrong: recording revision `k` ends with the whole schema exactly when
      no revision that changes the schema lies between it and where the database was built. */
  lemma StampIsExact(chain: seq<Revision>, rows: seq<Row>, n: nat, k: nat)
    requires ValidChain(chain) && 1 <= n <= |chain| && k < |chain|
    ensures var o := Upgrade(chain, Built(chain, rows, n, {}), k + 1);
      (o.Done? && o.db.features == FeaturesOf(chain, 0, |chain|))
      <==> forall j :: 0 <= j < |chain| && chain[j].Adds? ==> (j < n <==> j <= k)
  {
    var db := Built(chain, rows, n, {});
    UpgradeGoesThrough(chain, db, k + 1);
    ClashExactly(chain, n, k);
    assert db.features == FeaturesOf(chain, 0, n);
    if forall j :: 0 <= j < |chain| && chain[j].Adds? ==> (j < n <==> j <= k) {
      WholeSchema(chain, n, k + 1);
    } else if Upgrade(chain, db, k + 1).Done? && Upgrade(chain, db, k + 1).db.features == FeaturesOf(chain, 0, |chain|) {
      WholeExactly(chain, n, k);
    }
  }

  lemma PlaceOf(chain: seq<Revision>, n: nat, k: nat, j: nat)
    requires ValidChain(chain) && n <= |chain| && k < |chain| && j < |chain| && chain[j].Adds?
    ensures j < n <==> !(chain[j].features !! FeaturesOf(chain, 0, n))
    ensures j > k <==> !(chain[j].features !! FeaturesOf(chain, k + 1, |chain|))
    ensures chain[j].features <= FeaturesOf(chain, 0, |chain|)
  {
    var f :| f in chain[j].features;
    FeaturesHave(chain, 0, |chain|, j);
    if j < n {
      FeaturesHave(chain, 0, n, j);
    } else {
      FeaturesApart(chain, 0, n, j);
    }
    if j > k {
      FeaturesHave(chain, k + 1, |chain|, j);
    } else {
      FeaturesApart(chain, k + 1, |chain|, j);
    }
  }

  lemma WholeSchema(chain: seq<Revision>, n: nat, i: nat)
    requires n <= |chain| && i <= |chain|
    requires forall j :: 0 <= j < |chain| && chain[j].Adds? ==> (j < n <==> j < i)
    ensures FeaturesOf(chain, 0, n) + FeaturesOf(chain, i, |chain|) == FeaturesOf(chain, 0, |chain|)
  {
    if n <= i {
      NoFeatures(chain, n, i);
      FeaturesJoin(chain, 0, n, i);
    } else {
      NoFeatures(chain, i, n);
      FeaturesJoin(chain, 0, i, n);
    }
    FeaturesJoin(chain, 0, i, |chain|);
  }

  // ----- the service's own chain -----

  const TABLES: set<Feature> := {
    HasTable(Users), HasTable(Schools), HasTable(Lessons), HasTable(Progress), HasTable(ChatMessages), HasTable(AccessRequests),
    HasTable(LessonAssignments), HasTable(Slides), HasTable(SlideReadings), HasTable(UploadedFiles), HasTable(FairProjects),
    HasTable(LoginThrottles), HasTable(RefreshTokens), HasTable(Reports), HasTable(SecurityLogs), HasTable(AiUsage)}

  const INITIAL: set<Feature> := TABLES + EXTRA

  const EXTRA: set<Feature> := {
    HasColumn(Progress, CompletedAt), HasColumn(Progress, UnlockedOverride), HasColumn(Progress, LastSlide),
    HasColumn(Progress, SlideTotal), HasColumn(Schools, ProgramYear), HasColumn(Lessons, LessonYear), HasColumn(Lessons, Course),
    HasColumn(Users, IctFairAccess), HasColumn(SecurityLogs, Detail)}

  const CHAIN: seq<Revision> := [
    Adds(0xecdcb1245c53, INITIAL),
    Adds(0x42958f0e7fe1, {HasTable(FairSections), HasColumn(FairProjects, SectionId)}),
    Adds(0x9b3d71c8a4e5, {HasColumn(Users, UserSections), HasColumn(AccessRequests, Section), HasColumn(Progress, Section)}),
    Adds(0xc47f0a6e21b8, {HasColumn(ChatMessages, Section)}),
    Repairs(0xd8b21c60fa73, {"late"}, {"late"}),
    Repairs(0xb7e4c2915d30, {"on-track", "late"}, {"in-progress", "late"}),
    Adds(0xf3a91c47b2e5, {HasColumn(Users, FailedLoginWindowStartedAt)}),
    Adds(0xc5d82b1e4f07, {HasColumn(LoginThrottles, CycleStartedAt), HasColumn(LoginThrottles, LastSuccessAt)}),
    Adds(0xd3940bee30a4, {HasColumn(Users, SessionsValidFrom)})]

  const MARKERS: seq<Marker> := [
    Marker(0xecdcb1245c53, HasTable(Users)),
    Marker(0x42958f0e7fe1, HasTable(FairSections)),
    Marker(0x9b3d71c8a4e5, HasColumn(Progress, Section)),
    Marker(0xc47f0a6e21b8, HasColumn(ChatMessages, Section)),
    Marker(0xf3a91c47b2e5, HasColumn(Users, FailedLoginWindowStartedAt)),
    Marker(0xc5d82b1e4f07, HasColumn(LoginThrottles, CycleStartedAt)),
    Marker(0xd3940bee30a4, HasColumn(Users, SessionsValidFrom))]

  /** The revision that brings a table or a column. */
  function Owner(f: Feature): nat {
    match f
    case HasTable(t) => if t == FairSections then 1 else 0
    case HasColumn(t, c) =>
      match c
      case SectionId => 1
      case UserSections => 2
      case Section => if t == ChatMessages then 3 else 2
      case FailedLoginWindowStartedAt => 6
      case CycleStartedAt => 7
      case LastSuccessAt => 7
      case SessionsValidFrom => 8
      case _ => 0
  }

  lemma TablesOwner()
    ensures TABLES != {} && forall f :: f in TABLES ==> Owner(f) == 0
  {
    assert HasTable(Users) in TABLES;
    assert forall f :: f in TABLES ==> f.HasTable? && f.table != FairSections;
  }

  lemma ExtraOwner()
    ensures forall f :: f in EXTRA ==> Owner(f) == 0
  {
  }

  lemma InitialOwner()
    ensures INITIAL != {} && forall f :: f in INITIAL ==> Owner(f) == 0
  {
    TablesOwner();
    ExtraOwner();
  }

  lemma ChainOwners(i: nat)
    requires i < |CHAIN| && CHAIN[i].Adds?
    ensures CHAIN[i].features != {} && forall f :: f in CHAIN[i].features ==> Owner(f) == i
  {
    if i == 0 {
      InitialOwner();
    } else {
      LaterOwners(i);
    }
  }

  lemma LaterOwners(i: nat)
    requires 0 < i < |CHAIN| && CHAIN[i].Adds?
    ensures CHAIN[i].features != {} && forall f :: f in CHAIN[i].features ==> Owner(f) == i
  {
  }

  lemma ChainDisjoint()
    ensures Disjoint(CHAIN)
  {
    forall i, j | 0 <= i < j < |CHAIN| && CHAIN[i].Adds? && CHAIN[j].Adds? ensures CHAIN[i].features !! CHAIN[j].features {
      ChainOwners(i);
      ChainOwners(j);
    }
  }

  lemma ChainRanks()
    ensures Rank(CHAIN, 1) == 1 && Rank(CHAIN, 2) == 2 && Rank(CHAIN, 3) == 3 && Rank(CHAIN, 4) == 4
    ensures Rank(CHAIN, 5) == 4 && Rank(CHAIN, 6) == 4 && Rank(CHAIN, 7) == 5 && Rank(CHAIN, 8) == 6 && Rank(CHAIN, 9) == 7
  {
  }

  lemma ChainMarkers()
    ensures ValidMarkers(CHAIN, MARKERS)
  {
    ChainRanks();
    forall i | 0 <= i < |CHAIN| && CHAIN[i].Adds? ensures Rank(CHAIN, i) < |MARKERS| && MarkerFor(CHAIN, MARKERS, i) {
      FeaturesHave(CHAIN, 0, i + 1, 0);
      FeaturesHave(CHAIN, 0, i + 1, i);
    }
  }

  lemma ChainSettles()
    ensures Settling(CHAIN)
  {
  }

  lemma ChainIds()
    ensures DistinctIds(CHAIN)
  {
  }

  lemma ChainExtra()
    ensures ValidExtra(CHAIN, EXTRA)
  {
  }

  /** The chain and the markers of the service are sound, so all of the above holds of them. */
  lemma ServiceChainIsSound()
    ensures ValidChain(CHAIN) && ValidMarkers(CHAIN, MARKERS) && ValidExtra(CHAIN, EXTRA)
  {
    ChainIds();
    ChainDisjoint();
    ChainSettles();
    ChainMarkers();
    ChainExtra();
    forall i | 0 <= i < |CHAIN| && CHAIN[i].Adds? ensures CHAIN[i].features != {} {
      ChainOwners(i);
    }
  }

  const WATCHDOGS: set<string> := {ON_TRACK, "not_opened", "completed", "needs_attention"}
  const STATUSES: set<string> := {"not_started", IN_PROGRESS, "completed"}

  /** Whichever of the two versions of "retire late" a database saw, and however far into it,
      the repair after it leaves only values the service can read, and every value it could read
      before as it was. */
  lemma RepairLeavesReadable(row: Row)
    requires row.watchdog in WATCHDOGS + {"late", "on-track"} && row.status in STATUSES + {"late", "in-progress"}
    ensures var repaired := RepairRow(CHAIN[5], row);
      && repaired.watchdog in WATCHDOGS && repaired.status in STATUSES
      && (row.watchdog in WATCHDOGS ==> repaired.watchdog == row.watchdog)
      && (row.status in STATUSES ==> repaired.status == row.status)
  {
    RetiredIsUnreadable();
  }

  lemma RetiredIsUnreadable()
    ensures CHAIN[5].watchdog !! WATCHDOGS && CHAIN[5].status !! STATUSES
  {
    assert "on-track"[2] == '-' && "in-progress"[2] == '-' && |"late"| == 4;
    assert ON_TRACK[2] == '_' && IN_PROGRESS[2] == '_';
  }
}
