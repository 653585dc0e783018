/** What the access rule guarantees: one open lesson per track, overrides that reach one
    class only, and access that time alone never takes away. */
module AccessRules {
  import opened Clock
  import opened SectionTables
  import opened SectionRenames
  import opened Sections
  import opened LessonAccess

  predicate IsOpen(a: Access) {
    a.Available? || a.Waiting?
  }

  /** A track has at most one lesson, other than the unlocked ones, that is open or counting
      down: the first unfinished one. */
  lemma OneCurrentLesson(track: seq<Lesson>, section: Label, rows: Rows, i: nat, j: nat, now: int, wait: nat)
    requires i < |track| && j < |track|
    requires !IsUnlocked(rows, Key(track[i].id, section)) && !IsUnlocked(rows, Key(track[j].id, section))
    requires IsOpen(AccessAt(track, section, rows, i, now, wait)) && IsOpen(AccessAt(track, section, rows, j, now, wait))
    ensures i == j
  {
  }

  function RowAt(rows: Rows, key: Key): Progress {
    if key in rows then rows[key] else FRESH
  }

  /** Set or clear the override on one row, creating the row if there is none. */
  function SetUnlocked(rows: Rows, key: Key, unlocked: bool): Rows {
    rows[key := RowAt(rows, key).(unlocked := unlocked)]
  }

  lemma SameProgressSameAccess(track: seq<Lesson>, section: Label, a: Rows, b: Rows, i: nat, now: int, wait: nat)
    requires i < |track|
    requires forall j :: 0 <= j <= i ==>
      && IsCompleted(a, Key(track[j].id, section)) == IsCompleted(b, Key(track[j].id, section))
      && CompletedAt(a, Key(track[j].id, section)) == CompletedAt(b, Key(track[j].id, section))
    requires IsUnlocked(a, Key(track[i].id, section)) == IsUnlocked(b, Key(track[i].id, section))
    ensures AccessAt(track, section, a, i, now, wait) == AccessAt(track, section, b, i, now, wait)
  {
  }

  lemma SameProgressSameRule(track: seq<Lesson>, section: Label, a: Rows, b: Rows, i: nat, now: int, wait: nat)
    requires i < |track|
    requires forall j :: 0 <= j <= i ==>
      && IsCompleted(a, Key(track[j].id, section)) == IsCompleted(b, Key(track[j].id, section))
      && CompletedAt(a, Key(track[j].id, section)) == CompletedAt(b, Key(track[j].id, section))
    ensures RuleAt(track, section, a, i, now, wait) == RuleAt(track, section, b, i, now, wait)
  {
    assert Behind(track, section, a, i) == Behind(track, section, b, i);
  }

  /** An override opens its own lesson for its own class, or returns it to the rule, and
      changes the access of nothing else: no other lesson, class, language, year or grade. */
  lemma OverrideIsLocal(d: Desk, rows: Rows, key: Key, unlocked: bool, n: nat, section: Label, now: int, wait: nat)
    requires n < |d.lessons| && section in SectionsFor(d.sections, d.lessons[n].grade)
    ensures Key(d.lessons[n].id, section) != key ==>
      AccessOf(d, SetUnlocked(rows, key, unlocked), n, section, now, wait) == AccessOf(d, rows, n, section, now, wait)
    ensures Key(d.lessons[n].id, section) == key && unlocked ==>
      AccessOf(d, SetUnlocked(rows, key, unlocked), n, section, now, wait) == Available
    ensures Key(d.lessons[n].id, section) == key && !unlocked ==>
      AccessOf(d, SetUnlocked(rows, key, unlocked), n, section, now, wait)
        == RuleAt(Track(d, d.lessons, TrackOf(d.lessons[n], section)), section, rows, Position(d, n, section), now, wait)
  {
    var track := Track(d, d.lessons, TrackOf(d.lessons[n], section));
    if Key(d.lessons[n].id, section) != key {
      SameProgressSameAccess(track, section, SetUnlocked(rows, key, unlocked), rows, Position(d, n, section), now, wait);
    } else if !unlocked {
      SameProgressSameRule(track, section, SetUnlocked(rows, key, unlocked), rows, Position(d, n, section), now, wait);
    }
  }

  // ----- the rule on the lessons themselves -----

  /** Lessons a class is taught one after another. */
  predicate SameCourse(a: Lesson, b: Lesson) {
    a.grade == b.grade && a.language == b.language && a.year == b.year
  }

  predicate Earlier(d: Desk, m: int, n: nat)
    requires n < |d.lessons|
  {
    0 <= m < n && SameCourse(d.lessons[m], d.lessons[n])
  }

  /** The last such lesson before this one. */
  predicate JustBefore(d: Desk, m: int, n: nat)
    requires n < |d.lessons|
  {
    Earlier(d, m, n) && forall k :: m < k < n ==> !SameCourse(d.lessons[k], d.lessons[n])
  }

  predicate Finished(rows: Rows, l: Lesson, section: Label) {
    RowAt(rows, Key(l.id, section)).status == Completed
  }

  /** The wait that started when the lesson was finished still runs. */
  predicate StillWaits(rows: Rows, l: Lesson, section: Label, now: int, wait: nat) {
    var stamp := RowAt(rows, Key(l.id, section)).completedAt;
    stamp.At? && now < stamp.t + wait
  }

  ghost predicate AllFinishedBefore(d: Desk, rows: Rows, n: nat, section: Label)
    requires n < |d.lessons|
  {
    forall m :: Earlier(d, m, n) ==> Finished(rows, d.lessons[m], section)
  }

  /** A track holds the assigned lessons of one grade, language and year, and no others. */
  lemma SharesTrack(d: Desk, l: Lesson, n: nat, section: Label)
    requires n < |d.lessons| && section in SectionsFor(d.sections, d.lessons[n].grade)
    ensures l in Track(d, d.lessons, TrackOf(d.lessons[n], section)) <==> l in d.lessons && SameCourse(l, d.lessons[n])
  {
  }

  /** A lesson is taught to every class the teacher takes of its grade, and to one class without
      a name when she has named none. */
  lemma TaughtExactly(d: Desk, key: Key)
    ensures Taught(d, key) <==> exists n :: 0 <= n < |d.lessons| && TaughtAs(d, n, key)
  {
    assert forall n :: 0 <= n < |d.lessons| ==>
      (TaughtAs(d, n, key) <==> d.lessons[n].id == key.lesson && key.section in SectionsFor(d.sections, d.lessons[n].grade));
  }

  predicate TaughtAs(d: Desk, n: nat, key: Key)
    requires n < |d.lessons|
  {
    var grade := d.lessons[n].grade;
    && d.lessons[n].id == key.lesson
    && if grade in d.sections && d.sections[grade] != [] then key.section in d.sections[grade] else key.section == ""
  }

  lemma {:induction false} TrackPrefix(d: Desk, lessons: seq<Lesson>, n: nat, k: TrackKey)
    requires n <= |lessons|
    ensures Track(d, lessons[..n], k) <= Track(d, lessons, k)
  {
    if n < |lessons| {
      var p := lessons[..|lessons| - 1];
      assert p[..n] == lessons[..n];
      TrackPrefix(d, p, n, k);
    } else {
      assert lessons[..n] == lessons;
    }
  }

  /** The last lesson of a track is the last of the lessons that is in it. */
  lemma {:induction false} TrackEnds(d: Desk, lessons: seq<Lesson>, k: TrackKey) returns (m: int)
    ensures -1 <= m < |lessons| && (m == -1 <==> Track(d, lessons, k) == [])
    ensures m >= 0 ==> InTrack(d, lessons[m], k) && Track(d, lessons, k)[|Track(d, lessons, k)| - 1] == lessons[m]
    ensures forall j :: m < j < |lessons| ==> !InTrack(d, lessons[j], k)
  {
    if lessons == [] {
      m := -1;
    } else if InTrack(d, lessons[|lessons| - 1], k) {
      m := |lessons| - 1;
    } else {
      m := TrackEnds(d, lessons[..|lessons| - 1], k);
    }
  }

  /** The lessons before one in its track are the earlier ones of its course. */
  lemma FrontOfTrack(d: Desk, n: nat, section: Label)
    requires n < |d.lessons| && section in SectionsFor(d.sections, d.lessons[n].grade)
    ensures Track(d, d.lessons, TrackOf(d.lessons[n], section))[..Position(d, n, section)]
      == Track(d, d.lessons[..n], TrackOf(d.lessons[n], section))
  {
    TrackPrefix(d, d.lessons, n, TrackOf(d.lessons[n], section));
  }

  lemma EarlierInFront(d: Desk, n: nat, section: Label, l: Lesson)
    requires n < |d.lessons| && section in SectionsFor(d.sections, d.lessons[n].grade)
    ensures l in Track(d, d.lessons[..n], TrackOf(d.lessons[n], section)) <==> exists j :: Earlier(d, j, n) && d.lessons[j] == l
  {
    var k := TrackOf(d.lessons[n], section);
    assert l in Track(d, d.lessons[..n], k) <==> l in d.lessons[..n] && InTrack(d, l, k);
    if l in d.lessons[..n] && InTrack(d, l, k) {
      var j :| 0 <= j < n && d.lessons[..n][j] == l;
      assert Earlier(d, j, n);
    }
  }

  /** What lies before a lesson in its track: the earlier lessons of its course, and the last of
      them right before it. */
  lemma MembersBefore(d: Desk, n: nat, section: Label, l: Lesson)
    requires n < |d.lessons| && section in SectionsFor(d.sections, d.lessons[n].grade)
    ensures l in Track(d, d.lessons, TrackOf(d.lessons[n], section))[..Position(d, n, section)] <==> exists j :: Earlier(d, j, n) && d.lessons[j] == l
  {
    FrontOfTrack(d, n, section);
    EarlierInFront(d, n, section, l);
  }

  lemma LastBefore(d: Desk, n: nat, section: Label) returns (m: int)
    requires n < |d.lessons| && section in SectionsFor(d.sections, d.lessons[n].grade)
    ensures var track, i := Track(d, d.lessons, TrackOf(d.lessons[n], section)), Position(d, n, section);
      if i == 0 then forall j :: !Earlier(d, j, n)
      else JustBefore(d, m, n) && track[i - 1] == d.lessons[m]
  {
    var k := TrackOf(d.lessons[n], section);
    var front := Track(d, d.lessons[..n], k);
    m := TrackEnds(d, d.lessons[..n], k);
    FrontOfTrack(d, n, section);
    LastIsJustBefore(d, n, section, m);
    if front != [] {
      assert Track(d, d.lessons, k)[..|front|][|front| - 1] == d.lessons[m];
    }
  }

  lemma LastIsJustBefore(d: Desk, n: nat, section: Label, m: int)
    requires n < |d.lessons| && section in SectionsFor(d.sections, d.lessons[n].grade) && -1 <= m < n
    requires m >= 0 ==> InTrack(d, d.lessons[m], TrackOf(d.lessons[n], section))
    requires forall j :: m < j < n ==> !InTrack(d, d.lessons[..n][j], TrackOf(d.lessons[n], section))
    ensures if m == -1 then forall j :: !Earlier(d, j, n) else JustBefore(d, m, n)
  {
    forall j | m < j < n ensures !SameCourse(d.lessons[j], d.lessons[n]) {
      assert d.lessons[..n][j] == d.lessons[j];
    }
  }

  /** The access of a lesson in a class, by the lessons of its grade, language and year alone:
      closed once finished; locked behind one of them that is not finished; and otherwise
      waiting while the wait of the last of them runs. An override comes before all three. */
  lemma AccessSpelledOut(d: Desk, rows: Rows, n: nat, section: Label, now: int, wait: nat)
    requires n < |d.lessons| && section in SectionsFor(d.sections, d.lessons[n].grade)
    ensures var own, access := RowAt(rows, Key(d.lessons[n].id, section)), AccessOf(d, rows, n, section, now, wait);
      && (access == Done <==> own.status == Completed && !own.unlocked)
      && (access == Locked <==> own.status != Completed && !own.unlocked && !AllFinishedBefore(d, rows, n, section))
      && (access.Waiting? <==>
            (own.status != Completed && !own.unlocked && AllFinishedBefore(d, rows, n, section)
             && exists m :: JustBefore(d, m, n) && StillWaits(rows, d.lessons[m], section, now, wait)))
      && (forall m :: access.Waiting? && JustBefore(d, m, n) ==> access.at == RowAt(rows, Key(d.lessons[m].id, section)).completedAt.t + wait)
  {
    var m := LastBefore(d, n, section);
    var track, i := Track(d, d.lessons, TrackOf(d.lessons[n], section)), Position(d, n, section);
    BehindSpelledOut(d, rows, n, section);
    assert forall j, k :: JustBefore(d, j, n) && JustBefore(d, k, n) ==> j == k;
  }

  lemma BehindSpelledOut(d: Desk, rows: Rows, n: nat, section: Label)
    requires n < |d.lessons| && section in SectionsFor(d.sections, d.lessons[n].grade)
    ensures Behind(Track(d, d.lessons, TrackOf(d.lessons[n], section)), section, rows, Position(d, n, section))
       <==> !AllFinishedBefore(d, rows, n, section)
  {
    var track, i := Track(d, d.lessons, TrackOf(d.lessons[n], section)), Position(d, n, section);
    if j :| 0 <= j < i && !IsCompleted(rows, Key(track[j].id, section)) {
      assert track[j] in track[..i];
      MembersBefore(d, n, section, track[j]);
    }
    if m :| Earlier(d, m, n) && !Finished(rows, d.lessons[m], section) {
      MembersBefore(d, n, section, d.lessons[m]);
      assert d.lessons[m] in track[..i];
    }
  }

  /** Nothing but the class's own rows of those lessons matters. */
  lemma OtherRowsDoNotMatter(d: Desk, a: Rows, b: Rows, n: nat, section: Label, now: int, wait: nat)
    requires n < |d.lessons| && section in SectionsFor(d.sections, d.lessons[n].grade)
    requires forall l :: l in d.lessons && SameCourse(l, d.lessons[n]) ==> RowAt(a, Key(l.id, section)) == RowAt(b, Key(l.id, section))
    ensures AccessOf(d, a, n, section, now, wait) == AccessOf(d, b, n, section, now, wait)
  {
    var m := LastBefore(d, n, section);
    AccessSpelledOut(d, a, n, section, now, wait);
    AccessSpelledOut(d, b, n, section, now, wait);
    assert AllFinishedBefore(d, a, n, section) <==> AllFinishedBefore(d, b, n, section);
  }

  /** Time alone never takes access away, and a countdown ends exactly when it said. */
  lemma TimeOnlyOpens(track: seq<Lesson>, section: Label, rows: Rows, i: nat, now: int, later: int, wait: nat)
    requires i < |track| && now <= later
    ensures var a, b := AccessAt(track, section, rows, i, now, wait), AccessAt(track, section, rows, i, later, wait);
      match a
      case Available => b == Available
      case Done => b == Done
      case Locked => b == Locked
      case Waiting(at) => now < at && b == if later >= at then Available else Waiting(at)
  {
  }

  datatype Next = AllFinished | NextIs(i: nat)

  /** The lesson a class opens next, as the class picker reports it. It is never locked. */
  method NextLesson(track: seq<Lesson>, section: Label, rows: Rows, now: int, wait: nat, access: map<Key, Access>) returns (next: Next)
    requires forall i :: 0 <= i < |track| ==>
      Key(track[i].id, section) in access && access[Key(track[i].id, section)] == AccessAt(track, section, rows, i, now, wait)
    ensures next.AllFinished? <==> forall i :: 0 <= i < |track| ==> access[Key(track[i].id, section)] == Done
    ensures next.NextIs? ==>
      && next.i < |track|
      && IsOpen(access[Key(track[next.i].id, section)])
      && forall j :: 0 <= j < next.i ==> access[Key(track[j].id, section)] == Done
  {
    for i := 0 to |track|
      invariant forall j :: 0 <= j < i ==> access[Key(track[j].id, section)] == Done
    {
      if access[Key(track[i].id, section)] == Done {
        continue;
      }
      FirstOpenIsNotLocked(track, section, rows, now, wait, i);
      return NextIs(i);
    }
    return AllFinished;
  }

  lemma FirstOpenIsNotLocked(track: seq<Lesson>, section: Label, rows: Rows, now: int, wait: nat, i: nat)
    requires i < |track| && AccessAt(track, section, rows, i, now, wait) != Done
    requires forall j :: 0 <= j < i ==> AccessAt(track, section, rows, j, now, wait) == Done
    ensures IsOpen(AccessAt(track, section, rows, i, now, wait))
  {
    if Behind(track, section, rows, i) {
      var j :| 0 <= j < i && !IsCompleted(rows, Key(track[j].id, section));
      assert AccessAt(track, section, rows, j, now, wait) == Done;
    }
  }
}
