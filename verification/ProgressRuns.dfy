/** What holds of a teacher's progress over whole runs of reports, requests, overrides and
    resets. */
module ProgressRuns {
  import opened Clock
  import opened SectionTables
  import opened SectionRenames
  import opened Sections
  import opened LessonAccess
  import opened AccessRules
  import opened ProgressBook

  datatype Event =
    | Report(lesson: nat, payload: Payload, now: int)
    | AskFor(id: nat, lesson: nat, section: Requested, now: int)
    | Settle(id: nat, granted: bool, now: int)
    | Unlock(lesson: nat, section: Requested, unlocked: bool, now: int)
    | Clear(scope: Scope, now: int)

  function Step(d: Desk, known: set<nat>, wait: nat, b: Book, e: Event): Book {
    match e
    case Report(lesson, payload, now) => Update(d, known, b, lesson, payload, now, wait).1
    case AskFor(id, lesson, section, now) => Ask(d, known, b, id, lesson, section, now, wait).1
    case Settle(id, granted, _) => Resolve(b, id, granted).1
    case Unlock(lesson, section, unlocked, _) => Override(d, known, b, lesson, section, unlocked).1
    case Clear(scope, _) => b.(rows := Reset(b.rows, scope))
  }

  function Run(d: Desk, known: set<nat>, wait: nat, b: Book, events: seq<Event>): Book {
    if events == [] then b
    else Step(d, known, wait, Run(d, known, wait, b, events[..|events| - 1]), events[|events| - 1])
  }

  // ----- every row, over every run -----

  /** The three records of completion agree, and so do percentage and status. */
  predicate Coherent(p: Progress) {
    && p.percent <= 100
    && p.status == StatusOf(p.percent)
    && (p.status == Completed <==> p.completedAt != Never)
  }

  predicate AllCoherent(rows: Rows) {
    forall key :: key in rows ==> Coherent(rows[key])
  }

  predicate OnePendingPerClass(requests: seq<Request>) {
    forall i, j :: 0 <= i < j < |requests| && requests[i].status == Pending && requests[j].status == Pending ==>
      requests[i].key != requests[j].key
  }

  lemma SettleKeepsRows(d: Desk, known: set<nat>, wait: nat, b: Book, e: Event)
    requires AllCoherent(b.rows) && (e.Settle? || e.AskFor?)
    ensures AllCoherent(Step(d, known, wait, b, e).rows)
  {
  }

  lemma UnlockKeepsRows(d: Desk, known: set<nat>, wait: nat, b: Book, e: Event)
    requires AllCoherent(b.rows) && e.Unlock?
    ensures AllCoherent(Step(d, known, wait, b, e).rows)
  {
  }

  lemma ClearKeepsRows(d: Desk, known: set<nat>, wait: nat, b: Book, e: Event)
    requires AllCoherent(b.rows) && e.Clear?
    ensures AllCoherent(Step(d, known, wait, b, e).rows)
  {
  }

  lemma StepKeepsRows(d: Desk, known: set<nat>, wait: nat, b: Book, e: Event)
    requires AllCoherent(b.rows)
    ensures AllCoherent(Step(d, known, wait, b, e).rows)
  {
    match e
    case Report(lesson, payload, now) => ReportWrites(d, known, wait, b, lesson, payload, now);
    case AskFor(_, _, _, _) => SettleKeepsRows(d, known, wait, b, e);
    case Settle(_, _, _) => SettleKeepsRows(d, known, wait, b, e);
    case Unlock(_, _, _, _) => UnlockKeepsRows(d, known, wait, b, e);
    case Clear(_, _) => ClearKeepsRows(d, known, wait, b, e);
  }

  lemma AskKeepsPending(d: Desk, known: set<nat>, wait: nat, b: Book, e: Event)
    requires OnePendingPerClass(b.requests) && e.AskFor?
    ensures OnePendingPerClass(Step(d, known, wait, b, e).requests)
  {
  }

  lemma SettleKeepsPending(d: Desk, known: set<nat>, wait: nat, b: Book, e: Event)
    requires OnePendingPerClass(b.requests) && e.Settle?
    ensures OnePendingPerClass(Step(d, known, wait, b, e).requests)
  {
  }

  lemma StepKeepsPending(d: Desk, known: set<nat>, wait: nat, b: Book, e: Event)
    requires OnePendingPerClass(b.requests)
    ensures OnePendingPerClass(Step(d, known, wait, b, e).requests)
  {
    if e.AskFor? {
      AskKeepsPending(d, known, wait, b, e);
    } else if e.Settle? {
      SettleKeepsPending(d, known, wait, b, e);
    }
  }

  predicate WellKept(b: Book) {
    AllCoherent(b.rows) && OnePendingPerClass(b.requests)
  }

  lemma StepKeepsRecords(d: Desk, known: set<nat>, wait: nat, b: Book, e: Event)
    requires WellKept(b)
    ensures WellKept(Step(d, known, wait, b, e))
  {
    StepKeepsRows(d, known, wait, b, e);
    StepKeepsPending(d, known, wait, b, e);
  }

  /** Any run keeps every row coherent and at most one request pending per class. */
  lemma {:induction false} RunsKeepRecords(d: Desk, known: set<nat>, wait: nat, b: Book, events: seq<Event>)
    requires WellKept(b)
    ensures WellKept(Run(d, known, wait, b, events))
  {
    if events != [] {
      RunsKeepRecords(d, known, wait, b, events[..|events| - 1]);
      StepKeepsRecords(d, known, wait, Run(d, known, wait, b, events[..|events| - 1]), events[|events| - 1]);
    }
  }

  // ----- what one report may do -----

  /** A report changes at most the reported lesson's row for the resolved class. */
  predicate ReportTouches(d: Desk, known: set<nat>, lesson: nat, payload: Payload, key: Key) {
    Locate(d, known, lesson, payload.section).Found? && key == Key(lesson, Locate(d, known, lesson, payload.section).section)
  }

  /** A lesson becomes completed only by an explicit completion, in its turn: it was
      unlocked, or everything before it in its track was finished and the lesson right
      before it had been for at least the wait. A slide number alone never completes. */
  lemma CompletionIsEarned(d: Desk, known: set<nat>, wait: nat, b: Book, lesson: nat, payload: Payload, now: int, n: nat, section: Label)
    requires ValidDesk(d) && AllCoherent(b.rows)
    requires n < |d.lessons| && section in SectionsFor(d.sections, d.lessons[n].grade)
    requires !IsCompleted(b.rows, Key(d.lessons[n].id, section))
    requires IsCompleted(Update(d, known, b, lesson, payload, now, wait).1.rows, Key(d.lessons[n].id, section))
    ensures payload.complete && ReportTouches(d, known, lesson, payload, Key(d.lessons[n].id, section))
    ensures var track, i := Track(d, d.lessons, TrackOf(d.lessons[n], section)), Position(d, n, section);
      || IsUnlocked(b.rows, Key(d.lessons[n].id, section))
      || (!Behind(track, section, b.rows, i)
          && (i > 0 ==> var prior := CompletedAt(b.rows, Key(track[i - 1].id, section)); prior != Never && now >= prior.t + wait))
  {
    CompletedByReport(d, known, wait, b, lesson, payload, now, Key(d.lessons[n].id, section));
    var target := Locate(d, known, lesson, payload.section);
    assert d.lessons[target.n].id == d.lessons[n].id;
  }

  lemma CompletedByReport(d: Desk, known: set<nat>, wait: nat, b: Book, lesson: nat, payload: Payload, now: int, key: Key)
    requires !IsCompleted(b.rows, key)
    requires IsCompleted(Update(d, known, b, lesson, payload, now, wait).1.rows, key)
    ensures payload.complete && ReportTouches(d, known, lesson, payload, key)
    ensures var target := Locate(d, known, lesson, payload.section);
      AccessOf(d, b.rows, target.n, target.section, now, wait) == Available
  {
  }

  /** `p` is the whole percentage nearest to `slide` of `total`, the even one of two equally
      near, and never more than 99. */
  predicate Nearest(p: nat, slide: nat, total: nat) {
    if 200 * slide > 197 * total then p == 99
    else
      && 200 * slide - total <= 2 * p * total <= 200 * slide + total
      && (2 * p * total == 200 * slide - total || 2 * p * total == 200 * slide + total ==> p % 2 == 0)
  }

  /** How many slides a report is taken to be of: as many as it says, or else as many as were
      last known. */
  predicate SlidesKnown(b: Book, lesson: nat, payload: Payload, total: nat) {
    if payload.total.Of? && payload.total.n > 0 then total == payload.total.n
    else if lesson in b.slides then total == b.slides[lesson]
    else total == 0
  }

  /** What a report that reached an open lesson leaves in its row. */
  predicate Reported(before: Progress, after: Progress, payload: Payload, total: nat, now: int) {
    && after.lastOpened == At(now)
    && (total > 0 ==> after.slideTotal == Of(total))
    && (total == 0 ==> after.slideTotal == before.slideTotal)
    && (payload.complete ==>
          && after.percent == 100 && after.status == Completed && !after.unlocked
          && after.completedAt == (if before.completedAt == Never then At(now) else before.completedAt)
          && after.lastSlide == (if total > 0 then Of(total) else before.lastSlide))
    && (!payload.complete && payload.slide.Of? ==>
          && (if total == 0 then after.percent == 0 else Nearest(after.percent, payload.slide.n, total))
          && after.status == (if after.percent == 0 then NotStarted else InProgress)
          && after.completedAt == Never && after.unlocked == before.unlocked && after.lastSlide == payload.slide)
  }

  lemma RoundedIsNearest(slide: nat, total: nat)
    requires total > 0
    ensures var r := RoundHalfEven(slide * 100, total); Nearest(if r < 99 then r else 99, slide, total)
  {
    var x := slide * 100;
    var n := RoundHalfEven(x, total);
    QuotientAndRest(x, total);
    NearestHalf(x, total, x / total, x % total, n);
    if 2 * x > 197 * total && n <= 98 {
      Ordered(2 * n, 196, total);
      assert false;
    }
    if 2 * x <= 197 * total && n >= 99 {
      Ordered(198, 2 * n, total);
      assert 2 * n * total == 2 * x + total;
      Ordered(2 * n, 198, total);
      assert false;
    }
  }

  lemma QuotientAndRest(x: nat, y: nat)
    requires y > 0
    ensures x == x / y * y + x % y && x % y < y
  {
  }

  lemma Ordered(a: nat, b: nat, t: nat)
    requires t > 0
    ensures a <= b <==> a * t <= b * t
  {
  }

  lemma NearestHalf(x: nat, total: nat, q: nat, r: nat, n: nat)
    requires total > 0 && x == q * total + r && r < total
    requires n == if 2 * r < total then q else if 2 * r > total then q + 1 else if q % 2 == 0 then q else q + 1
    ensures 2 * x - total <= 2 * n * total <= 2 * x + total
    ensures 2 * n * total == 2 * x - total || 2 * n * total == 2 * x + total ==> n % 2 == 0
  {
    assert 2 * (q + 1) * total == 2 * (q * total) + 2 * total;
    assert 2 * q * total == 2 * (q * total);
  }

  /** A report that reaches an open lesson and says something. */
  predicate Reaches(d: Desk, known: set<nat>, b: Book, lesson: nat, payload: Payload, now: int, wait: nat) {
    var target := Locate(d, known, lesson, payload.section);
    && target.Found? && (payload.complete || payload.slide.Of?)
    && AccessOf(d, b.rows, target.n, target.section, now, wait) == Available
  }

  /** The lesson is one of the teacher's. */
  predicate IsAssigned(d: Desk, lesson: nat) {
    exists n :: 0 <= n < |d.lessons| && d.lessons[n].id == lesson
  }

  /** What a report is answered with, and in which order its faults are found: no such lesson, not
      hers, not one of its classes, not open yet, nothing said. A finished lesson is no fault. */
  lemma ReportAnswered(d: Desk, known: set<nat>, b: Book, lesson: nat, payload: Payload, now: int, wait: nat)
    ensures var reply, target := Update(d, known, b, lesson, payload, now, wait).0, Locate(d, known, lesson, payload.section);
      && (reply == Refused(NotFound) <==> lesson !in known)
      && (reply == Refused(NotAssigned) <==> lesson in known && !IsAssigned(d, lesson))
      && (reply == Refused(UnknownSection) <==> lesson in known && IsAssigned(d, lesson) && target.Missing?)
      && (target.Found? ==>
            var access := AccessOf(d, b.rows, target.n, target.section, now, wait);
            && (reply == Refused(NotYet) <==> access == Locked || access.Waiting?)
            && (reply == Refused(NothingReported) <==> access == Available && !payload.complete && payload.slide == Unset)
            && (access == Done ==> reply == Saved(RowAt(b.rows, Key(lesson, target.section)))))
  {
    assert forall n :: 0 <= n < |d.lessons| && d.lessons[n].id == lesson ==> IsAssigned(d, lesson);
  }

  /** Such a report is recorded in one row, and every other stays; any other changes nothing. */
  lemma ReportRecords(d: Desk, known: set<nat>, b: Book, lesson: nat, payload: Payload, now: int, wait: nat, total: nat)
    requires SlidesKnown(b, lesson, payload, total)
    ensures var (reply, after) := Update(d, known, b, lesson, payload, now, wait);
      if !Reaches(d, known, b, lesson, payload, now, wait) then after == b
      else
        var key := Key(lesson, Locate(d, known, lesson, payload.section).section);
        && key in after.rows && reply == Saved(after.rows[key])
        && Reported(RowAt(b.rows, key), after.rows[key], payload, total, now)
        && after.rows == b.rows[key := after.rows[key]] && after.requests == b.requests
        && after.slides == if payload.total.Of? && payload.total.n > 0 then b.slides[lesson := payload.total.n] else b.slides
  {
    if Reaches(d, known, b, lesson, payload, now, wait) && !payload.complete && total > 0 {
      RoundedIsNearest(payload.slide.n, total);
    }
  }

  /** Saving a slide in a lesson that was finished and reopened takes its completion back. */
  predicate TakesBack(d: Desk, known: set<nat>, b: Book, lesson: nat, payload: Payload, now: int, wait: nat) {
    var target := Locate(d, known, lesson, payload.section);
    && target.Found?
    && AccessOf(d, b.rows, target.n, target.section, now, wait) == Available
    && IsCompleted(b.rows, Key(lesson, target.section))
    && payload.slide.Of? && !payload.complete
  }

  /** Only the row at `key` may differ. */
  ghost predicate SameBut(a: Rows, b: Rows, key: Key) {
    forall k :: k != key ==> (k in a <==> k in b) && (k in a ==> a[k] == b[k])
  }

  /** What a report leaves in the one row it writes. */
  predicate Recorded(before: Rows, after: Rows, key: Key, payload: Payload, now: int) {
    && key in after && Coherent(after[key])
    && (IsCompleted(after, key) <==> payload.complete)
    && (payload.complete ==> after[key].completedAt == (if IsCompleted(before, key) then CompletedAt(before, key) else At(now)))
    && (after[key].unlocked ==> IsUnlocked(before, key))
  }

  lemma ReportWrites(d: Desk, known: set<nat>, wait: nat, b: Book, lesson: nat, payload: Payload, now: int)
    requires AllCoherent(b.rows)
    ensures var after, target := Update(d, known, b, lesson, payload, now, wait).1.rows, Locate(d, known, lesson, payload.section);
      || after == b.rows
      || (&& target.Found? && AccessOf(d, b.rows, target.n, target.section, now, wait) == Available
          && (payload.complete || payload.slide.Of?)
          && SameBut(b.rows, after, Key(lesson, target.section))
          && Recorded(b.rows, after, Key(lesson, target.section), payload, now))
  {
  }

  /** Inside one track: an open lesson closes exactly when an earlier one stops being
      completed, unless it is unlocked. */
  lemma TrackLocks(track: seq<Lesson>, section: Label, a: Rows, b: Rows, p: nat, i: nat, now: int, wait: nat)
    requires p < |track| && i < |track| && p != i && DistinctLessons(track)
    requires SameBut(a, b, Key(track[p].id, section))
    requires IsCompleted(a, Key(track[p].id, section)) && IsCompleted(b, Key(track[p].id, section)) ==>
      CompletedAt(a, Key(track[p].id, section)) == CompletedAt(b, Key(track[p].id, section))
    requires AccessAt(track, section, a, i, now, wait) == Available
    ensures AccessAt(track, section, b, i, now, wait) != Available
       <==> p < i && IsCompleted(a, Key(track[p].id, section)) && !IsCompleted(b, Key(track[p].id, section))
            && !IsUnlocked(a, Key(track[i].id, section))
  {
  }

  /** A row of another track is not in this one. */
  lemma OtherTrack(d: Desk, k: TrackKey, n: nat, section: Label)
    requires ValidDesk(d) && n < |d.lessons| && section in SectionsFor(d.sections, d.lessons[n].grade)
    requires k != TrackOf(d.lessons[n], section)
    ensures forall j :: 0 <= j < |Track(d, d.lessons, k)| ==> Key(Track(d, d.lessons, k)[j].id, k.section) != Key(d.lessons[n].id, section)
  {
    var track := Track(d, d.lessons, k);
    forall j | 0 <= j < |track| ensures Key(track[j].id, k.section) != Key(d.lessons[n].id, section) {
      if Key(track[j].id, k.section) == Key(d.lessons[n].id, section) {
        OneTrackPerKey(d, k, TrackOf(d.lessons[n], section), j, Position(d, n, section));
      }
    }
  }

  /** Closed by a write to `(n, s)`: the place is later in the same track. */
  predicate LaterInTrack(d: Desk, n: nat, s: Label, m: nat, t: Label)
    requires n < |d.lessons| && s in SectionsFor(d.sections, d.lessons[n].grade)
    requires m < |d.lessons| && t in SectionsFor(d.sections, d.lessons[m].grade)
  {
    && TrackOf(d.lessons[n], s) == TrackOf(d.lessons[m], t)
    && Position(d, n, s) < Position(d, m, t)
  }

  lemma WriteLocks(d: Desk, a: Rows, b: Rows, n: nat, s: Label, m: nat, t: Label, now: int, wait: nat)
    requires ValidDesk(d)
    requires n < |d.lessons| && s in SectionsFor(d.sections, d.lessons[n].grade)
    requires m < |d.lessons| && t in SectionsFor(d.sections, d.lessons[m].grade)
    requires Key(d.lessons[n].id, s) != Key(d.lessons[m].id, t)
    requires SameBut(a, b, Key(d.lessons[n].id, s))
    requires IsCompleted(a, Key(d.lessons[n].id, s)) && IsCompleted(b, Key(d.lessons[n].id, s)) ==>
      CompletedAt(a, Key(d.lessons[n].id, s)) == CompletedAt(b, Key(d.lessons[n].id, s))
    requires AccessOf(d, a, m, t, now, wait) == Available
    ensures AccessOf(d, b, m, t, now, wait) != Available
       <==> LaterInTrack(d, n, s, m, t) && IsCompleted(a, Key(d.lessons[n].id, s)) && !IsCompleted(b, Key(d.lessons[n].id, s))
            && !IsUnlocked(a, Key(d.lessons[m].id, t))
  {
    var k := TrackOf(d.lessons[m], t);
    var track := Track(d, d.lessons, k);
    if TrackOf(d.lessons[n], s) == k {
      TrackDistinct(d, d.lessons, k);
      TrackLocks(track, t, a, b, Position(d, n, s), Position(d, m, t), now, wait);
    } else {
      OtherTrack(d, k, n, s);
      SameProgressSameAccess(track, t, a, b, Position(d, m, t), now, wait);
    }
  }

  /** A report takes access to another lesson away exactly when it takes a completion back
      and that lesson comes later in the same track without being unlocked itself. */
  lemma ReportLocksExactly(d: Desk, known: set<nat>, wait: nat, b: Book, lesson: nat, payload: Payload, now: int, m: nat, t: Label)
    requires ValidDesk(d) && AllCoherent(b.rows)
    requires m < |d.lessons| && t in SectionsFor(d.sections, d.lessons[m].grade)
    requires !ReportTouches(d, known, lesson, payload, Key(d.lessons[m].id, t))
    requires AccessOf(d, b.rows, m, t, now, wait) == Available
    ensures AccessOf(d, Update(d, known, b, lesson, payload, now, wait).1.rows, m, t, now, wait) != Available
       <==> && TakesBack(d, known, b, lesson, payload, now, wait)
            && !IsUnlocked(b.rows, Key(d.lessons[m].id, t))
            && LaterInTrack(d, Locate(d, known, lesson, payload.section).n, Locate(d, known, lesson, payload.section).section, m, t)
  {
    var target := Locate(d, known, lesson, payload.section);
    ReportWrites(d, known, wait, b, lesson, payload, now);
    var after := Update(d, known, b, lesson, payload, now, wait).1.rows;
    if after != b.rows {
      WriteLocks(d, b.rows, after, target.n, target.section, m, t, now, wait);
    }
  }

  /** Two lessons of a grade with one class; the first was finished, and then reopened. */
  const DESK: Desk := Desk([Lesson(1, 6, 0, 1), Lesson(2, 6, 0, 1)], map[])
  const REOPENED: Book := Book(map[Key(1, NO_SECTION) := Progress(Completed, 100, At(0), Of(4), Of(4), At(0), true)], map[], [])

  lemma DeskTrack(n: nat)
    requires n < 2
    ensures ValidDesk(DESK) && NO_SECTION in SectionsFor(DESK.sections, DESK.lessons[n].grade)
    ensures Track(DESK, DESK.lessons, TrackOf(DESK.lessons[n], NO_SECTION)) == DESK.lessons && Position(DESK, n, NO_SECTION) == n
  {
    var k := TrackOf(DESK.lessons[n], NO_SECTION);
    var lessons := DESK.lessons;
    assert lessons[..1] == [lessons[0]] && lessons[..1][..0] == [];
    assert Track(DESK, [], k) == [];
    assert Track(DESK, lessons[..1], k) == [lessons[0]];
  }

  lemma BothOpen()
    ensures AccessOf(DESK, REOPENED.rows, 0, NO_SECTION, 10, 5) == Available
    ensures AccessOf(DESK, REOPENED.rows, 1, NO_SECTION, 10, 5) == Available
    ensures IsCompleted(REOPENED.rows, Key(1, NO_SECTION)) && !IsUnlocked(REOPENED.rows, Key(2, NO_SECTION))
  {
    DeskTrack(0);
    DeskTrack(1);
    assert !Behind(DESK.lessons, NO_SECTION, REOPENED.rows, 1);
  }

  lemma FirstLocated()
    ensures Locate(DESK, {1, 2}, 1, NotGiven) == Found(0, NO_SECTION)
  {
    assert IndexOf(DESK.lessons, 1) == 0;
  }

  /** Saving slide 1 there takes the completion back and closes the second lesson. */
  lemma SlideLocksNextLesson()
    ensures AccessOf(DESK, REOPENED.rows, 1, NO_SECTION, 10, 5) == Available
    ensures AccessOf(DESK, Update(DESK, {1, 2}, REOPENED, 1, Payload(Of(1), Unset, false, NotGiven), 10, 5).1.rows, 1, NO_SECTION, 10, 5) != Available
  {
    var report := Payload(Of(1), Unset, false, NotGiven);
    BothOpen();
    FirstLocated();
    DeskTrack(0);
    SecondComesLater();
    SlideTakesBack(report);
    ReportLocksExactly(DESK, {1, 2}, 5, REOPENED, 1, report, 10, 1, NO_SECTION);
  }

  lemma SlideTakesBack(report: Payload)
    requires report == Payload(Of(1), Unset, false, NotGiven)
    ensures TakesBack(DESK, {1, 2}, REOPENED, 1, report, 10, 5)
  {
    BothOpen();
    FirstLocated();
  }

  lemma SecondComesLater()
    ensures NO_SECTION in SectionsFor(DESK.sections, DESK.lessons[0].grade) && NO_SECTION in SectionsFor(DESK.sections, DESK.lessons[1].grade)
    ensures LaterInTrack(DESK, 0, NO_SECTION, 1, NO_SECTION)
    ensures AllCoherent(REOPENED.rows)
  {
    DeskTrack(0);
    DeskTrack(1);
  }

  // ----- teaching in order -----

  /** Finished lessons come first, each finished at least the wait after the one before it. */
  predicate InOrder(track: seq<Lesson>, section: Label, rows: Rows, now: int, wait: nat) {
    && (forall i :: 0 <= i < |track| && IsCompleted(rows, Key(track[i].id, section)) ==>
          && !Behind(track, section, rows, i)
          && rows[Key(track[i].id, section)].completedAt != Never
          && rows[Key(track[i].id, section)].completedAt.t <= now)
    && (forall i :: 0 < i < |track| && IsCompleted(rows, Key(track[i].id, section)) && IsCompleted(rows, Key(track[i - 1].id, section)) ==>
          rows[Key(track[i].id, section)].completedAt.t >= rows[Key(track[i - 1].id, section)].completedAt.t + wait)
  }

  predicate NoneUnlocked(rows: Rows) {
    forall key :: key in rows ==> !rows[key].unlocked
  }

  /** Reports only, at times that never go back. */
  predicate Teaching(events: seq<Event>, start: int) {
    && (forall i :: 0 <= i < |events| ==> events[i].Report? && start <= events[i].now)
    && (forall i, j :: 0 <= i < j < |events| ==> events[i].now <= events[j].now)
  }

  /** Writing the one open lesson keeps its track in order. */
  lemma WriteKeepsOrder(track: seq<Lesson>, section: Label, before: Rows, after: Rows, p: nat, was: int, now: int, wait: nat)
    requires p < |track| && DistinctLessons(track) && was <= now
    requires AllCoherent(before) && InOrder(track, section, before, was, wait)
    requires !IsUnlocked(before, Key(track[p].id, section))
    requires AccessAt(track, section, before, p, now, wait) == Available
    requires SameBut(before, after, Key(track[p].id, section))
    requires IsCompleted(after, Key(track[p].id, section)) ==> after[Key(track[p].id, section)].completedAt == At(now)
    ensures InOrder(track, section, after, now, wait)
  {
    assert !IsCompleted(before, Key(track[p].id, section));
    forall j | 0 <= j < |track| && j != p ensures Key(track[j].id, section) != Key(track[p].id, section) {
    }
    forall i | 0 <= i < |track| && IsCompleted(after, Key(track[i].id, section))
      ensures !Behind(track, section, after, i) && i <= p
    {
      if i > p {
        assert IsCompleted(before, Key(track[i].id, section));
        assert Behind(track, section, before, i);
      } else {
        assert Behind(track, section, after, i) == Behind(track, section, before, i);
      }
    }
  }

  lemma ReportKeepsOrder(d: Desk, known: set<nat>, wait: nat, b: Book, lesson: nat, payload: Payload, was: int, now: int, k: TrackKey)
    requires ValidDesk(d) && AllCoherent(b.rows) && NoneUnlocked(b.rows) && was <= now
    requires InOrder(Track(d, d.lessons, k), k.section, b.rows, was, wait)
    ensures InOrder(Track(d, d.lessons, k), k.section, Update(d, known, b, lesson, payload, now, wait).1.rows, now, wait)
  {
    ReportWrites(d, known, wait, b, lesson, payload, now);
    var rows := Update(d, known, b, lesson, payload, now, wait).1.rows;
    var target := Locate(d, known, lesson, payload.section);
    var track := Track(d, d.lessons, k);
    if rows != b.rows {
      if k == TrackOf(d.lessons[target.n], target.section) {
        TrackDistinct(d, d.lessons, k);
        WriteKeepsOrder(track, k.section, b.rows, rows, Position(d, target.n, target.section), was, now, wait);
      } else {
        OtherTrack(d, k, target.n, target.section);
        SameRowsInOrder(track, k.section, b.rows, rows, was, now, wait);
      }
    } else {
      SameRowsInOrder(track, k.section, b.rows, rows, was, now, wait);
    }
  }

  lemma SameRowsInOrder(track: seq<Lesson>, section: Label, a: Rows, b: Rows, was: int, now: int, wait: nat)
    requires InOrder(track, section, a, was, wait) && was <= now
    requires forall j :: 0 <= j < |track| ==>
      (Key(track[j].id, section) in a <==> Key(track[j].id, section) in b)
      && (Key(track[j].id, section) in a ==> a[Key(track[j].id, section)] == b[Key(track[j].id, section)])
    ensures InOrder(track, section, b, now, wait)
  {
  }

  ghost predicate Orderly(d: Desk, rows: Rows, now: int, wait: nat) {
    && AllCoherent(rows) && NoneUnlocked(rows)
    && forall k :: InOrder(Track(d, d.lessons, k), k.section, rows, now, wait)
  }

  lemma ReportStaysOrderly(d: Desk, known: set<nat>, wait: nat, b: Book, lesson: nat, payload: Payload, was: int, now: int)
    requires ValidDesk(d) && Orderly(d, b.rows, was, wait) && was <= now
    ensures Orderly(d, Update(d, known, b, lesson, payload, now, wait).1.rows, now, wait)
  {
    ReportWrites(d, known, wait, b, lesson, payload, now);
    forall k ensures InOrder(Track(d, d.lessons, k), k.section, Update(d, known, b, lesson, payload, now, wait).1.rows, now, wait) {
      ReportKeepsOrder(d, known, wait, b, lesson, payload, was, now, k);
    }
  }

  /** From a fresh start, any run of reports leaves every track of every class finished in
      order, with completions at least the wait apart. */
  lemma {:induction false} TeachingStaysInOrder(d: Desk, known: set<nat>, wait: nat, b: Book, events: seq<Event>, start: int)
    requires ValidDesk(d) && Teaching(events, start)
    requires AllCoherent(b.rows) && NoneUnlocked(b.rows)
    requires forall key :: key in b.rows ==> b.rows[key].status != Completed
    ensures Orderly(d, Run(d, known, wait, b, events).rows, if events == [] then start else events[|events| - 1].now, wait)
  {
    if events != [] {
      var p, e := events[..|events| - 1], events[|events| - 1];
      TeachingStaysInOrder(d, known, wait, b, p, start);
      ReportStaysOrderly(d, known, wait, Run(d, known, wait, b, p), e.lesson, e.payload, if p == [] then start else p[|p| - 1].now, e.now);
    }
  }
}
