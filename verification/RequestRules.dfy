/** What asking, granting and resetting amount to for the lessons a teacher may open. */
module RequestRules {
  import opened Clock
  import opened SectionTables
  import opened SectionRenames
  import opened Sections
  import opened LessonAccess
  import opened AccessRules
  import opened ProgressBook

  predicate FreshId(b: Book, id: nat) {
    forall i :: 0 <= i < |b.requests| ==> b.requests[i].id != id
  }

  /** The request just added is the one its id finds. */
  lemma {:induction false} FindsAdded(requests: seq<Request>, r: Request)
    ensures FindRequest(requests + [r], r.id) == |requests|
  {
    assert (requests + [r])[|requests|] == r;
  }

  /** Whoever's request it is: settling a pending one by a grant opens its own lesson to its
      own class, and a denial opens nothing; neither changes any other lesson or class. */
  lemma SettlingIsLocal(d: Desk, b: Book, id: nat, granted: bool, n: nat, section: Label, now: int, wait: nat)
    requires n < |d.lessons| && section in SectionsFor(d.sections, d.lessons[n].grade)
    ensures var (reply, after), key := Resolve(b, id, granted), Key(d.lessons[n].id, section);
      AccessOf(d, after.rows, n, section, now, wait)
        == if reply == Saved(key) && granted then Available else AccessOf(d, b.rows, n, section, now, wait)
  {
    var i := FindRequest(b.requests, id);
    if i >= 0 && b.requests[i].status == Pending && granted {
      OverrideIsLocal(d, b.rows, b.requests[i].key, true, n, section, now, wait);
    }
  }

  /** A pending request is settled as it was decided, it alone; any other answer changes
      nothing. */
  lemma SettledAsDecided(b: Book, id: nat, granted: bool)
    ensures var (reply, after) := Resolve(b, id, granted);
      if reply.Refused? then
        && after == b
        && (reply.reason == NotFound <==> FreshId(b, id))
        && (reply.reason == AlreadyResolved || reply.reason == NotFound)
      else exists i :: 0 <= i < |b.requests| && SettledAt(b, after, i, id, granted) && reply.value == b.requests[i].key
  {
    var i := FindRequest(b.requests, id);
    if i >= 0 && b.requests[i].status == Pending {
      assert SettledAt(b, Resolve(b, id, granted).1, i, id, granted);
    }
  }

  predicate SettledAt(b: Book, after: Book, i: nat, id: nat, granted: bool)
    requires i < |b.requests|
  {
    && b.requests[i] == Request(id, b.requests[i].key, Pending)
    && after.requests == b.requests[i := Request(id, b.requests[i].key, if granted then Granted else Denied)]
    && after.slides == b.slides
  }

  /** A class that is not open gets a pending request of its own when it asks, unless it has one;
      nothing else changes, and one that is open gets none. */
  lemma AskRecords(d: Desk, known: set<nat>, b: Book, id: nat, lesson: nat, section: Requested, now: int, wait: nat)
    requires Locate(d, known, lesson, section).Found?
    ensures var target, (reply, after) := Locate(d, known, lesson, section), Ask(d, known, b, id, lesson, section, now, wait);
      var key := Key(lesson, target.section);
      if AccessOf(d, b.rows, target.n, target.section, now, wait) == Available then reply == Refused(AlreadyOpen) && after == b
      else if exists r :: r in b.requests && r.key == key && r.status == Pending then reply == Saved(key) && after == b
      else reply == Saved(key) && after == b.(requests := b.requests + [Request(id, key, Pending)])
  {
    var key := Key(lesson, Locate(d, known, lesson, section).section);
    assert HasPending(b.requests, key) <==> exists r :: r in b.requests && r.key == key && r.status == Pending;
  }

  /** Setting an override grants what its class has pending on that lesson, and nothing else;
      clearing it settles nothing. */
  lemma OverrideSettles(d: Desk, known: set<nat>, b: Book, lesson: nat, section: Requested, unlocked: bool, i: nat)
    requires Locate(d, known, lesson, section).Found? && i < |b.requests|
    ensures var after, key := Override(d, known, b, lesson, section, unlocked).1, Key(lesson, Locate(d, known, lesson, section).section);
      && |after.requests| == |b.requests|
      && (if unlocked && b.requests[i].key == key && b.requests[i].status == Pending
          then after.requests[i] == Request(b.requests[i].id, key, Granted)
          else after.requests[i] == b.requests[i])
      && after.slides == b.slides
      && key in after.rows && after.rows == b.rows[key := RowAt(b.rows, key).(unlocked := unlocked)]
  {
  }

  /** The life of a request: once granted, the lesson it asked for is open to that class from
      then on, nothing more can be asked for it, and the request cannot be settled again. */
  lemma GrantedRequestOpens(d: Desk, known: set<nat>, b: Book, id: nat, lesson: nat, section: Requested, now: int, later: int, wait: nat)
    requires Locate(d, known, lesson, section).Found? && FreshId(b, id)
    requires Ask(d, known, b, id, lesson, section, now, wait).1 != b
    ensures var asked := Ask(d, known, b, id, lesson, section, now, wait).1;
      var target, granted := Locate(d, known, lesson, section), Resolve(asked, id, true).1;
      && Resolve(asked, id, true).0 == Saved(Key(lesson, target.section))
      && AccessOf(d, granted.rows, target.n, target.section, later, wait) == Available
      && Ask(d, known, granted, id + 1, lesson, section, later, wait) == (Refused(AlreadyOpen), granted)
      && Resolve(granted, id, true) == (Refused(AlreadyResolved), granted)
      && Resolve(granted, id, false) == (Refused(AlreadyResolved), granted)
  {
    var target := Locate(d, known, lesson, section);
    var asked := Ask(d, known, b, id, lesson, section, now, wait).1;
    var r := Request(id, Key(lesson, target.section), Pending);
    assert asked.requests == b.requests + [r];
    FindsAdded(b.requests, r);
    SettlingIsLocal(d, asked, id, true, target.n, target.section, later, wait);
    var granted := Resolve(asked, id, true).1;
    assert granted.requests == b.requests + [r.(status := Granted)];
    FindsAdded(b.requests, r.(status := Granted));
  }

  // ----- resetting -----

  lemma NothingTagged(rows: Rows, keys: set<Key>, tag: Tag)
    requires keys <= rows.Keys && forall key :: key in keys ==> rows[key] == FRESH
    ensures Tally(rows, keys, tag) == 0
  {
    assert (set key | key in keys && Tagged(rows[key], tag)) == {};
  }

  /** Resetting twice is resetting once, and the second run reports nothing cleared. */
  lemma ResetTwice(rows: Rows, scope: Scope)
    ensures Reset(Reset(rows, scope), scope) == Reset(rows, scope)
    ensures var first, again := ResetCounts(rows, scope), ResetCounts(Reset(rows, scope), scope);
      again == ResetResult(first.lessons, 0, 0, 0, first.classes)
  {
    var after := Reset(rows, scope);
    assert Scoped(after, scope) == Scoped(rows, scope);
    NothingTagged(after, Scoped(after, scope), WasCompleted);
    NothingTagged(after, Scoped(after, scope), WasStarted);
    NothingTagged(after, Scoped(after, scope), WasUnlocked);
  }

  /** Whether a reset of one lesson, one class, both or everything reaches a row. */
  predicate Reached(scope: Scope, key: Key) {
    (scope.lesson == Unset || scope.lesson == Of(key.lesson)) && (scope.section == NotGiven || scope.section == Given(key.section))
  }

  /** A reset clears the rows it reaches, and says how many there were, how many of them were
      finished, how many begun, how many unlocked, and of how many classes they are. */
  lemma ResetReports(rows: Rows, scope: Scope)
    ensures Reset(rows, scope).Keys == rows.Keys
    ensures forall key :: key in rows ==>
      Reset(rows, scope)[key] == if Reached(scope, key) then Progress(NotStarted, 0, Never, Unset, Unset, Never, false) else rows[key]
    ensures var r := ResetCounts(rows, scope);
      && r.lessons == |set key | key in rows && Reached(scope, key)|
      && r.completed == |set key | key in rows && Reached(scope, key) && rows[key].status == Completed|
      && r.started == |set key | key in rows && Reached(scope, key) && rows[key].status != Completed
                                 && (rows[key].status == InProgress || rows[key].percent > 0)|
      && r.overrides == |set key | key in rows && Reached(scope, key) && rows[key].unlocked|
      && r.classes == |set key | key in rows && Reached(scope, key) :: key.section|
  {
    assert forall key: Key :: InScope(scope, key) <==> Reached(scope, key);
    var keys := Scoped(rows, scope);
    assert (set key | key in rows && Reached(scope, key)) == keys;
    assert (set key | key in rows && Reached(scope, key) && rows[key].status == Completed) == set key | key in keys && Tagged(rows[key], WasCompleted);
    assert (set key | key in rows && Reached(scope, key) && rows[key].status != Completed && (rows[key].status == InProgress || rows[key].percent > 0))
      == set key | key in keys && Tagged(rows[key], WasStarted);
    assert (set key | key in rows && Reached(scope, key) && rows[key].unlocked) == set key | key in keys && Tagged(rows[key], WasUnlocked);
    assert (set key | key in rows && Reached(scope, key) :: key.section) == set key | key in keys :: key.section;
  }

  const EVERYTHING: Scope := Scope(Unset, NotGiven)

  /** A whole reset starts the class over: of every track exactly the first lesson is open,
      and the rest are locked. */
  lemma ResetStartsOver(d: Desk, rows: Rows, n: nat, section: Label, now: int, wait: nat)
    requires n < |d.lessons| && section in SectionsFor(d.sections, d.lessons[n].grade)
    ensures AccessOf(d, Reset(rows, EVERYTHING), n, section, now, wait)
      == if Position(d, n, section) == 0 then Available else Locked
  {
    var track, i, after := Track(d, d.lessons, TrackOf(d.lessons[n], section)), Position(d, n, section), Reset(rows, EVERYTHING);
    assert forall key :: key in after ==> after[key] == FRESH;
    assert !IsCompleted(after, Key(track[0].id, section));
    assert i > 0 ==> Behind(track, section, after, i);
  }

  /** The access of a lesson with an unfinished one before it. */
  function OnceBehind(rows: Rows, key: Key): Access {
    if IsUnlocked(rows, key) then Available else if IsCompleted(rows, key) then Done else Locked
  }

  /** Resetting one lesson in one class never opens anything behind it, and what it closes is
      exactly what stood on it: the later lessons of that class's track that are neither
      finished nor unlocked. */
  lemma ResetClosesExactly(track: seq<Lesson>, section: Label, rows: Rows, p: nat, i: nat, now: int, wait: nat)
    requires p < |track| && i < |track| && DistinctLessons(track)
    requires IsCompleted(rows, Key(track[p].id, section))
    ensures var after := Reset(rows, Scope(Of(track[p].id), Given(section)));
      i < p ==> AccessAt(track, section, after, i, now, wait) == AccessAt(track, section, rows, i, now, wait)
    ensures var after := Reset(rows, Scope(Of(track[p].id), Given(section)));
      i > p ==> AccessAt(track, section, after, i, now, wait) == OnceBehind(rows, Key(track[i].id, section))
  {
    var after := Reset(rows, Scope(Of(track[p].id), Given(section)));
    assert forall j :: 0 <= j < |track| && j != p ==> Key(track[j].id, section) != Key(track[p].id, section);
    if i < p {
      SameProgressSameAccess(track, section, after, rows, i, now, wait);
    } else if i > p {
      assert !IsCompleted(after, Key(track[p].id, section));
      assert Behind(track, section, after, i);
    }
  }
}
