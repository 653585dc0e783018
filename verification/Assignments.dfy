/** Which lessons a teacher holds, kept in step with the rule: grade, language and year. */
module Assignments {
  import opened Clock
  import opened SectionTables
  import opened SectionRenames
  import Sections
  import Sets
  import LessonAccess

  type Lesson = LessonAccess.Lesson
  type Progress = LessonAccess.Progress

  const NO_LANGUAGE: nat := 0
  const BOTH: nat := 1

  datatype Year = NoSchool | Year(y: int)

  datatype Teacher = Teacher(
    id: nat,
    isTeacher: bool,
    active: bool,
    grades: set<int>,
    language: nat,
    sections: ClassLists,
    year: Year)

  datatype Origin = Rule | Manual

  datatype Pair = Pair(teacher: nat, lesson: nat)

  datatype Seat = Seat(teacher: nat, lesson: nat, section: Label)

  datatype Request = Request(teacher: nat, lesson: nat, section: Label, pending: bool)

  type Catalog = map<nat, Lesson>

  /** The three tables, each by the key the database keeps unique. */
  datatype Rolls = Rolls(held: map<Pair, Origin>, progress: map<Seat, Progress>, requests: map<nat, Request>)

  // ----- the rule -----

  predicate LanguageMatches(teacher: nat, lesson: nat) {
    teacher != NO_LANGUAGE && lesson != NO_LANGUAGE && (teacher == lesson || teacher == BOTH)
  }

  predicate Matches(c: Catalog, t: Teacher, id: nat) {
    id in c && c[id].grade in t.grades && LanguageMatches(t.language, c[id].language) && t.year == Year(c[id].year)
  }

  predicate Untouched(p: Progress) {
    p.status == LessonAccess.NotStarted && p.percent == 0 && p.lastOpened == Never
  }

  /** No class of the teacher's has touched the lesson. */
  predicate NoneTouched(progress: map<Seat, Progress>, p: Pair) {
    forall k :: k in progress && PairOf(k) == p ==> Untouched(progress[k])
  }

  function PairOf(k: Seat): Pair {
    Pair(k.teacher, k.lesson)
  }

  function About(q: Request): Pair {
    Pair(q.teacher, q.lesson)
  }

  predicate Served(t: Teacher) {
    t.isTeacher && t.active && t.grades != {} && t.language != NO_LANGUAGE
  }

  function MatchingIds(c: Catalog, t: Teacher): set<nat> {
    set id | id in c && Matches(c, t, id)
  }

  function Ids(lessons: seq<nat>): set<nat> {
    set id | id in lessons
  }

  function ClassesOf(teacher: nat, lesson: nat, sections: seq<Label>): set<Seat> {
    set s | s in sections :: Seat(teacher, lesson, s)
  }

  /** One row for each class the teacher takes of each lesson's grade. */
  function SeatsOf(c: Catalog, t: Teacher, lessons: seq<nat>): set<Seat>
    requires forall i :: 0 <= i < |lessons| ==> lessons[i] in c
  {
    if lessons == [] then {}
    else
      var id := lessons[|lessons| - 1];
      SeatsOf(c, t, lessons[..|lessons| - 1]) + ClassesOf(t.id, id, Sections.SectionsFor(t.sections, c[id].grade))
  }

  /** Every class of every lesson the rule gives her. */
  function MatchingSeats(c: Catalog, t: Teacher): set<Seat> {
    set id, s | id in MatchingIds(c, t) && s in Sections.SectionsFor(t.sections, c[id].grade) :: Seat(t.id, id, s)
  }

  function WithPairs(held: map<Pair, Origin>, teacher: nat, ids: set<nat>): (r: map<Pair, Origin>)
    ensures forall p :: p in r <==> p in held || (p.teacher == teacher && p.lesson in ids)
    ensures forall p :: p in r ==> r[p] == if p in held then held[p] else Rule
  {
    var pairs := set id | id in ids :: Pair(teacher, id);
    map p | p in held.Keys + pairs :: if p in held then held[p] else Rule
  }

  function WithSeats(progress: map<Seat, Progress>, seats: set<Seat>): map<Seat, Progress> {
    map k | k in progress.Keys + seats :: if k in progress then progress[k] else LessonAccess.FRESH
  }

  /** Assign what matches; take nothing away. */
  function Synced(c: Catalog, t: Teacher, r: Rolls): Rolls {
    if !Served(t) then r
    else r.(
      held := WithPairs(r.held, t.id, MatchingIds(c, t)),
      progress := WithSeats(r.progress, MatchingSeats(c, t)))
  }

  /** Given by the rule, no longer matching, and not started by any class. */
  predicate Strips(c: Catalog, t: Teacher, r: Rolls, p: Pair) {
    && t.isTeacher && p.teacher == t.id
    && p in r.held && r.held[p] == Rule
    && p.lesson in c && !Matches(c, t, p.lesson)
    && NoneTouched(r.progress, p)
  }

  function StrippedPairs(c: Catalog, t: Teacher, r: Rolls): set<Pair> {
    set p | p in r.held && Strips(c, t, r, p)
  }

  /** Some assignments gone, with their rows and the requests still open on them. */
  function Dropped(r: Rolls, gone: set<Pair>): Rolls {
    Rolls(
      map p | p in r.held && p !in gone :: r.held[p],
      map k | k in r.progress && PairOf(k) !in gone :: r.progress[k],
      map q | q in r.requests && !(r.requests[q].pending && About(r.requests[q]) in gone) :: r.requests[q])
  }

  function Pruned(c: Catalog, t: Teacher, r: Rolls): Rolls {
    Dropped(r, StrippedPairs(c, t, r))
  }

  function Reconciled(c: Catalog, t: Teacher, r: Rolls): Rolls {
    Pruned(c, t, Synced(c, t, r))
  }

  // ----- one row at a time -----

  lemma NoSeats(progress: map<Seat, Progress>)
    ensures WithSeats(progress, {}) == progress
  {
  }

  lemma OneMoreSeat(progress: map<Seat, Progress>, seats: set<Seat>, key: Seat)
    ensures var now := WithSeats(progress, seats);
      WithSeats(progress, seats + {key}) == if key in now then now else now[key := LessonAccess.FRESH]
  {
  }

  lemma SeatsTwice(progress: map<Seat, Progress>, first: set<Seat>, second: set<Seat>)
    ensures WithSeats(WithSeats(progress, first), second) == WithSeats(progress, first + second)
  {
  }

  lemma OneMoreId(lessons: seq<nat>, i: nat)
    requires i < |lessons|
    ensures Ids(lessons[..i + 1]) == Ids(lessons[..i]) + {lessons[i]}
    ensures (forall a, b :: 0 <= a < b < |lessons| ==> lessons[a] != lessons[b]) ==> lessons[i] !in Ids(lessons[..i])
  {
  }

  lemma NoPairs(held: map<Pair, Origin>, teacher: nat)
    ensures WithPairs(held, teacher, {}) == held
  {
  }

  lemma OneMorePair(held: map<Pair, Origin>, teacher: nat, ids: set<nat>, id: nat)
    ensures var now := WithPairs(held, teacher, ids);
      WithPairs(held, teacher, ids + {id}) == if Pair(teacher, id) in now then now else now[Pair(teacher, id) := Rule]
  {
  }

  lemma {:induction false} SeatsOfAre(c: Catalog, t: Teacher, lessons: seq<nat>, k: Seat)
    requires forall i :: 0 <= i < |lessons| ==> lessons[i] in c
    ensures k in SeatsOf(c, t, lessons)
      <==> k.teacher == t.id && k.lesson in lessons && k.section in Sections.SectionsFor(t.sections, c[k.lesson].grade)
  {
    if lessons != [] {
      SeatsOfAre(c, t, lessons[..|lessons| - 1], k);
      assert lessons == lessons[..|lessons| - 1] + [lessons[|lessons| - 1]];
    }
  }

  lemma SeatsOfMatching(c: Catalog, t: Teacher, lessons: seq<nat>)
    requires MatchingIds(c, t) == Ids(lessons)
    ensures forall i :: 0 <= i < |lessons| ==> lessons[i] in c
    ensures SeatsOf(c, t, lessons) == MatchingSeats(c, t)
  {
    assert forall i :: 0 <= i < |lessons| ==> lessons[i] in MatchingIds(c, t);
    forall k ensures k in SeatsOf(c, t, lessons) <==> k in MatchingSeats(c, t) {
      SeatsOfAre(c, t, lessons, k);
    }
  }

  lemma NothingStripped(c: Catalog, t: Teacher, r: Rolls)
    requires !t.isTeacher
    ensures Pruned(c, t, r) == r
  {
  }

  lemma NothingDropped(r: Rolls)
    ensures Dropped(r, {}) == r
  {
  }

  lemma DropLeavesRows(r: Rolls, gone: set<Pair>, p: Pair)
    requires p !in gone
    ensures NoneTouched(Dropped(r, gone).progress, p) <==> NoneTouched(r.progress, p)
  {
  }

  function WithoutPair(r: Rolls, p: Pair): Rolls {
    Rolls(
      r.held - {p},
      map k | k in r.progress && PairOf(k) != p :: r.progress[k],
      map q | q in r.requests && !(r.requests[q].pending && About(r.requests[q]) == p) :: r.requests[q])
  }

  lemma DropOne(r: Rolls, gone: set<Pair>, p: Pair)
    ensures Dropped(r, gone + {p}) == WithoutPair(Dropped(r, gone), p)
  {
  }

  /** What the rule strips among some assignments. */
  function Gone(c: Catalog, t: Teacher, r: Rolls, pairs: seq<Pair>): set<Pair> {
    set p | p in pairs && Strips(c, t, r, p)
  }

  /** The walk over a teacher's assignments, one further. */
  lemma StripStep(c: Catalog, t: Teacher, r: Rolls, pairs: seq<Pair>, i: nat)
    requires t.isTeacher && i < |pairs| && pairs[i] in r.held && pairs[i].teacher == t.id
    requires forall a, b :: 0 <= a < b < |pairs| ==> pairs[a] != pairs[b]
    ensures var now, p := Dropped(r, Gone(c, t, r, pairs[..i])), pairs[i];
      && p in now.held
      && (Strips(c, t, r, p) <==> now.held[p] == Rule && p.lesson in c && !Matches(c, t, p.lesson) && NoneTouched(now.progress, p))
      && Dropped(r, Gone(c, t, r, pairs[..i + 1])) == if Strips(c, t, r, p) then WithoutPair(now, p) else now
  {
    var gone, p := Gone(c, t, r, pairs[..i]), pairs[i];
    assert p !in pairs[..i];
    DropLeavesRows(r, gone, p);
    DropOne(r, gone, p);
    assert Gone(c, t, r, pairs[..i + 1]) == if Strips(c, t, r, p) then gone + {p} else gone;
  }

  // ----- the service -----

  class Register {
    const catalog: Catalog
    var held: map<Pair, Origin>
    var progress: map<Seat, Progress>
    var requests: map<nat, Request>

    constructor (catalog: Catalog, r: Rolls)
      ensures this.catalog == catalog && Current() == r
    {
      this.catalog := catalog;
      held, progress, requests := r.held, r.progress, r.requests;
    }

    function Current(): Rolls
      reads this
    {
      Rolls(held, progress, requests)
    }

    /** Create the rows that are missing, one for each lesson and class. */
    method EnsureProgress(t: Teacher, lessons: seq<nat>) returns (created: nat)
      requires forall i :: 0 <= i < |lessons| ==> lessons[i] in catalog
      modifies this`progress
      ensures progress == WithSeats(old(progress), SeatsOf(catalog, t, lessons))
      ensures |progress| == |old(progress)| + created
    {
      created := 0;
      NoSeats(progress);
      for i := 0 to |lessons|
        invariant progress == WithSeats(old(progress), SeatsOf(catalog, t, lessons[..i]))
        invariant |progress| == |old(progress)| + created
      {
        var sections := Sections.SectionsFor(t.sections, catalog[lessons[i]].grade);
        var n := EnsureClasses(t.id, lessons[i], sections);
        created := created + n;
        SeatsTwice(old(progress), SeatsOf(catalog, t, lessons[..i]), ClassesOf(t.id, lessons[i], sections));
        assert lessons[..i + 1][..i] == lessons[..i];
      }
      assert lessons[..|lessons|] == lessons;
    }

    /** The missing rows of one lesson. */
    method EnsureClasses(teacher: nat, lesson: nat, sections: seq<Label>) returns (created: nat)
      modifies this`progress
      ensures progress == WithSeats(old(progress), ClassesOf(teacher, lesson, sections))
      ensures |progress| == |old(progress)| + created
    {
      created := 0;
      NoSeats(progress);
      for j := 0 to |sections|
        invariant progress == WithSeats(old(progress), ClassesOf(teacher, lesson, sections[..j]))
        invariant |progress| == |old(progress)| + created
      {
        var key := Seat(teacher, lesson, sections[j]);
        OneMoreSeat(old(progress), ClassesOf(teacher, lesson, sections[..j]), key);
        assert ClassesOf(teacher, lesson, sections[..j + 1]) == ClassesOf(teacher, lesson, sections[..j]) + {key};
        if key !in progress {
          progress := progress[key := LessonAccess.FRESH];
          created := created + 1;
        }
      }
      assert sections[..|sections|] == sections;
    }

    /** Catch a teacher up with the lessons the rule gives her; say how many are new. */
    method Sync(t: Teacher) returns (created: nat)
      modifies this`held, this`progress
      ensures Current() == Synced(catalog, t, old(Current()))
      ensures |held| == |old(held)| + created
    {
      created := 0;
      if !t.isTeacher || !t.active || t.grades == {} || t.language == NO_LANGUAGE {
        return;
      }
      created := GiveMatching(t);
    }

    /** The lessons the rule gives, and a row for each of their classes. */
    method GiveMatching(t: Teacher) returns (created: nat)
      modifies this`held, this`progress
      ensures held == WithPairs(old(held), t.id, MatchingIds(catalog, t))
      ensures progress == WithSeats(old(progress), MatchingSeats(catalog, t))
      ensures |held| == |old(held)| + created
    {
      var matching := Sets.Enumerate(MatchingIds(catalog, t));
      assert MatchingIds(catalog, t) == Ids(matching);
      SeatsOfMatching(catalog, t, matching);
      created := Assign(t.id, matching);
      var _ := EnsureProgress(t, matching);
    }

    /** Assign some lessons to a teacher by the rule, but for those she holds. */
    method Assign(teacher: nat, lessons: seq<nat>) returns (created: nat)
      modifies this`held
      ensures held == WithPairs(old(held), teacher, Ids(lessons))
      ensures |held| == |old(held)| + created
    {
      created := 0;
      ghost var done: set<nat> := {};
      NoPairs(held, teacher);
      for i := 0 to |lessons|
        invariant done == Ids(lessons[..i])
        invariant held == WithPairs(old(held), teacher, done)
        invariant |held| == |old(held)| + created
      {
        OneMoreId(lessons, i);
        OneMorePair(old(held), teacher, done, lessons[i]);
        if Pair(teacher, lessons[i]) !in held {
          held := held[Pair(teacher, lessons[i]) := Rule];
          created := created + 1;
        }
        done := done + {lessons[i]};
      }
      assert lessons[..|lessons|] == lessons;
    }

    /** Strip what the rule no longer gives her and no class has started; say how much. */
    method Prune(t: Teacher) returns (removed: nat)
      modifies this`held, this`progress, this`requests
      ensures Current() == Pruned(catalog, t, old(Current()))
      ensures |old(held)| == |held| + removed
    {
      removed := 0;
      ghost var was := Current();
      if !t.isTeacher {
        NothingStripped(catalog, t, was);
        return;
      }
      var mine := Sets.Enumerate(set p | p in held && p.teacher == t.id);
      NothingDropped(was);
      for i := 0 to |mine|
        invariant Current() == Dropped(was, Gone(catalog, t, was, mine[..i]))
        invariant |was.held| == |held| + removed
      {
        var p := mine[i];
        assert p in mine && p in was.held && p.teacher == t.id;
        StripStep(catalog, t, was, mine, i);
        if held[p] == Rule && p.lesson in catalog && !Matches(catalog, t, p.lesson) && NoneTouched(progress, p) {
          Strip(p);
          removed := removed + 1;
        }
      }
      assert mine[..|mine|] == mine;
      assert Gone(catalog, t, was, mine) == StrippedPairs(catalog, t, was);
    }

    /** Take one assignment away, with its rows and the requests still open on it. */
    method Strip(p: Pair)
      requires p in held
      modifies this`held, this`progress, this`requests
      ensures Current() == WithoutPair(old(Current()), p)
      ensures |old(held)| == |held| + 1
    {
      held := held - {p};
      progress := map k | k in progress && PairOf(k) != p :: progress[k];
      requests := map q | q in requests && !(requests[q].pending && About(requests[q]) == p) :: requests[q];
    }

    /** Re-apply the rule to every teacher of a school. */
    method Resync(teachers: seq<Teacher>) returns (added: nat, removed: nat)
      modifies this`held, this`progress, this`requests
      ensures Current() == AllReconciled(catalog, teachers, old(Current()))
      ensures |held| + removed == |old(held)| + added
    {
      added, removed := 0, 0;
      for i := 0 to |teachers|
        invariant Current() == AllReconciled(catalog, teachers[..i], old(Current()))
        invariant |held| + removed == |old(held)| + added
      {
        assert teachers[..i + 1][..i] == teachers[..i];
        var a := Sync(teachers[i]);
        var r := Prune(teachers[i]);
        added, removed := added + a, removed + r;
      }
      assert teachers[..|teachers|] == teachers;
    }
  }

  function AllReconciled(c: Catalog, teachers: seq<Teacher>, r: Rolls): Rolls {
    if teachers == [] then r
    else Reconciled(c, teachers[|teachers| - 1], AllReconciled(c, teachers[..|teachers| - 1], r))
  }
}
