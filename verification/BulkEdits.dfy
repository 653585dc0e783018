/** One edit of assignments by hand, over many lessons: what it is said to do, and what it
    does. */
module BulkEdits {
  import opened SectionTables
  import Sections
  import Sets
  import LessonAccess
  import opened Assignments
  import opened AssignmentRules

  const MAX_LESSONS: nat := 500

  datatype Edit = Edit(lessons: seq<nat>, add: set<nat>, remove: set<nat>)

  /** `active` are the active teachers of the school the edit is made in. */
  datatype School = School(catalog: Catalog, accounts: map<nat, Teacher>, active: set<nat>)

  datatype Problem = NoLessons | TooManyLessons | Overlap | NoTeachers | UnknownTeacher | NotFound

  datatype Result<T> = Ok(value: T) | Err(problem: Problem)

  datatype Counts = Counts(lessons: nat, adds: nat, removes: nat)

  datatype Preview = Preview(counts: Counts, lost: nat, losing: set<nat>)

  predicate ValidSchool(s: School) {
    s.active <= s.accounts.Keys && forall t :: t in s.accounts ==> s.accounts[t].id == t
  }

  function Chosen(s: School, e: Edit): set<nat> {
    Ids(e.lessons) * s.catalog.Keys
  }

  /** The lessons an edit is about, or the first thing wrong with it. */
  function Resolve(s: School, e: Edit): Result<set<nat>> {
    if e.lessons == [] then Err(NoLessons)
    else if |Ids(e.lessons)| > MAX_LESSONS then Err(TooManyLessons)
    else if e.add * e.remove != {} then Err(Overlap)
    else if e.add == {} && e.remove == {} then Err(NoTeachers)
    else if !(e.add + e.remove <= s.active) then Err(UnknownTeacher)
    else if Chosen(s, e) == {} then Err(NotFound)
    else Ok(Chosen(s, e))
  }

  // ----- what an edit does -----

  function PairsOf(teachers: set<nat>, lesson: nat): set<Pair> {
    set t | t in teachers :: Pair(t, lesson)
  }

  function NewPairs(r: Rolls, lessons: set<nat>, add: set<nat>): set<Pair> {
    set t, l | t in add && l in lessons && Pair(t, l) !in r.held :: Pair(t, l)
  }

  function GonePairs(r: Rolls, lessons: set<nat>, remove: set<nat>): set<Pair> {
    set p | p in r.held && p.teacher in remove && p.lesson in lessons
  }

  /** The classes the new pairs need rows for. */
  function NewSeats(s: School, pairs: set<Pair>): set<Seat>
    requires forall p :: p in pairs ==> p.teacher in s.accounts && p.lesson in s.catalog
  {
    set p, c | p in pairs && c in Sections.SectionsFor(s.accounts[p.teacher].sections, s.catalog[p.lesson].grade) :: Seat(p.teacher, p.lesson, c)
  }

  function GiveByHand(held: map<Pair, Origin>, pairs: set<Pair>): map<Pair, Origin> {
    map p | p in held.Keys + pairs :: if p in held then held[p] else Manual
  }

  predicate Applies(s: School, lessons: set<nat>, add: set<nat>) {
    lessons <= s.catalog.Keys && add <= s.accounts.Keys
  }

  /** The whole edit at once. */
  function Edited(s: School, r: Rolls, lessons: set<nat>, add: set<nat>, remove: set<nat>): Rolls
    requires Applies(s, lessons, add)
  {
    var given, gone := NewPairs(r, lessons, add), GonePairs(r, lessons, remove);
    r.(
      held := HeldBut(GiveByHand(r.held, given), gone),
      progress := RowsBut(WithSeats(r.progress, NewSeats(s, given)), gone))
  }

  function LessonsOf(pairs: set<Pair>): set<nat> {
    set p | p in pairs :: p.lesson
  }

  function StartedRows(r: Rolls, pairs: set<Pair>): set<Seat> {
    set k | k in r.progress && PairOf(k) in pairs && r.progress[k].status != LessonAccess.NotStarted
  }

  // ----- counting -----

  function Teachers(pairs: set<Seat>): set<nat> {
    set k | k in pairs :: k.teacher
  }

  lemma {:induction false} CountPairs(teachers: set<nat>, lesson: nat)
    ensures |PairsOf(teachers, lesson)| == |teachers|
  {
    if teachers != {} {
      var t :| t in teachers;
      CountPairs(teachers - {t}, lesson);
      assert PairsOf(teachers, lesson) == PairsOf(teachers - {t}, lesson) + {Pair(t, lesson)};
    }
  }

  /** One lesson's share of an edit. */
  function Fresh(r: Rolls, lesson: nat, add: set<nat>): set<nat> {
    set t | t in add && Pair(t, lesson) !in r.held
  }

  function Leaving(r: Rolls, lesson: nat, remove: set<nat>): set<nat> {
    set t | t in remove && Pair(t, lesson) in r.held
  }

  lemma OneMoreGiven(r: Rolls, lessons: set<nat>, lesson: nat, add: set<nat>)
    requires lesson !in lessons
    ensures NewPairs(r, lessons + {lesson}, add) == NewPairs(r, lessons, add) + PairsOf(Fresh(r, lesson, add), lesson)
    ensures |NewPairs(r, lessons + {lesson}, add)| == |NewPairs(r, lessons, add)| + |Fresh(r, lesson, add)|
  {
    CountPairs(Fresh(r, lesson, add), lesson);
    assert NewPairs(r, lessons, add) !! PairsOf(Fresh(r, lesson, add), lesson);
  }

  lemma OneMoreTaken(r: Rolls, lessons: set<nat>, lesson: nat, remove: set<nat>)
    requires lesson !in lessons
    ensures GonePairs(r, lessons + {lesson}, remove) == GonePairs(r, lessons, remove) + PairsOf(Leaving(r, lesson, remove), lesson)
    ensures |GonePairs(r, lessons + {lesson}, remove)| == |GonePairs(r, lessons, remove)| + |Leaving(r, lesson, remove)|
  {
    CountPairs(Leaving(r, lesson, remove), lesson);
    assert GonePairs(r, lessons, remove) !! PairsOf(Leaving(r, lesson, remove), lesson);
  }

  lemma OneMoreLesson(r: Rolls, lessons: set<nat>, lesson: nat, add: set<nat>, remove: set<nat>)
    requires lesson !in lessons
    ensures NewPairs(r, lessons + {lesson}, add) == NewPairs(r, lessons, add) + PairsOf(Fresh(r, lesson, add), lesson)
    ensures GonePairs(r, lessons + {lesson}, remove) == GonePairs(r, lessons, remove) + PairsOf(Leaving(r, lesson, remove), lesson)
    ensures |NewPairs(r, lessons + {lesson}, add)| == |NewPairs(r, lessons, add)| + |Fresh(r, lesson, add)|
    ensures |GonePairs(r, lessons + {lesson}, remove)| == |GonePairs(r, lessons, remove)| + |Leaving(r, lesson, remove)|
  {
    OneMoreGiven(r, lessons, lesson, add);
    OneMoreTaken(r, lessons, lesson, remove);
  }

  function TouchedLessons(r: Rolls, lessons: set<nat>, add: set<nat>, remove: set<nat>): set<nat> {
    LessonsOf(NewPairs(r, lessons, add) + GonePairs(r, lessons, remove))
  }

  lemma LessonsOfMore(pairs: set<Pair>, teachers: set<nat>, lesson: nat)
    ensures LessonsOf(pairs + PairsOf(teachers, lesson)) == if teachers == {} then LessonsOf(pairs) else LessonsOf(pairs) + {lesson}
  {
  }

  lemma OneMoreTouched(r: Rolls, done: set<nat>, l: nat, add: set<nat>, remove: set<nat>)
    requires l !in done
    ensures TouchedLessons(r, done + {l}, add, remove)
      == if Fresh(r, l, add) + Leaving(r, l, remove) == {} then TouchedLessons(r, done, add, remove) else TouchedLessons(r, done, add, remove) + {l}
  {
    var coming, leaving := Fresh(r, l, add), Leaving(r, l, remove);
    var given, gone := NewPairs(r, done, add), GonePairs(r, done, remove);
    OneMoreLesson(r, done, l, add, remove);
    LessonsOfMore(given + gone, coming + leaving, l);
    JoinPairs(given, gone, coming, leaving, l);
  }

  lemma JoinPairs(given: set<Pair>, gone: set<Pair>, coming: set<nat>, leaving: set<nat>, l: nat)
    ensures (given + PairsOf(coming, l)) + (gone + PairsOf(leaving, l)) == given + gone + PairsOf(coming + leaving, l)
  {
  }

  /** What a preview should say. */
  function Foretold(r: Rolls, lessons: set<nat>, add: set<nat>, remove: set<nat>): Preview {
    var gone := GonePairs(r, lessons, remove);
    Preview(
      Counts(|TouchedLessons(r, lessons, add, remove)|, |NewPairs(r, lessons, add)|, |gone|),
      |StartedRows(r, gone)|,
      Teachers(StartedRows(r, gone)))
  }

  predicate Tallied(r: Rolls, done: set<nat>, add: set<nat>, remove: set<nat>, adds: nat, removes: nat, touched: set<nat>) {
    && adds == |NewPairs(r, done, add)|
    && removes == |GonePairs(r, done, remove)|
    && touched == TouchedLessons(r, done, add, remove)
  }

  lemma TallyStep(r: Rolls, done: set<nat>, l: nat, add: set<nat>, remove: set<nat>, adds: nat, removes: nat, touched: set<nat>)
    requires Tallied(r, done, add, remove, adds, removes, touched) && l !in done
    ensures var a, b := |Fresh(r, l, add)|, |Leaving(r, l, remove)|;
      Tallied(r, done + {l}, add, remove, adds + a, removes + b, if a > 0 || b > 0 then touched + {l} else touched)
  {
    OneMoreLesson(r, done, l, add, remove);
    OneMoreTouched(r, done, l, add, remove);
  }

  // ----- the two routes -----

  /** Add up, lesson by lesson, the assignments an edit will give and take and the started work it
      will delete. */
  method PreviewBulk(school: School, g: Register, e: Edit) returns (p: Result<Preview>)
    ensures Resolve(school, e).Err? ==> p == Err(Resolve(school, e).problem)
    ensures Resolve(school, e).Ok? ==> p == Ok(Foretold(g.Current(), Chosen(school, e), e.add, e.remove))
  {
    var resolved := Resolve(school, e);
    if resolved.Err? {
      return Err(resolved.problem);
    }
    var counts, pairs := CountBulk(g, resolved.value, e.add, e.remove);
    var started := StartedRows(g.Current(), pairs);
    return Ok(Preview(counts, |started|, Teachers(started)));
  }

  /** The pairs an edit adds and removes, lesson by lesson. */
  method CountBulk(g: Register, chosen: set<nat>, add: set<nat>, remove: set<nat>) returns (counts: Counts, pairs: set<Pair>)
    ensures pairs == GonePairs(g.Current(), chosen, remove)
    ensures counts == Foretold(g.Current(), chosen, add, remove).counts
  {
    var lessons := Sets.Enumerate(chosen);
    ghost var r := g.Current();
    var adds: nat, removes: nat, touched: set<nat> := 0, 0, {};
    pairs := {};
    ghost var done: set<nat> := {};
    NothingChosen(r, add, remove);
    for i := 0 to |lessons|
      invariant done == Ids(lessons[..i])
      invariant CountedPairs(r, done, add, remove, pairs, adds, removes, touched)
    {
      OneMoreId(lessons, i);
      CountStep(r, done, lessons[i], add, remove, pairs, adds, removes, touched);
      var arriving := Fresh(g.Current(), lessons[i], add);
      var leaving := Leaving(g.Current(), lessons[i], remove);
      adds := adds + |arriving|;
      removes := removes + |leaving|;
      if |arriving| > 0 || |leaving| > 0 {
        touched := touched + {lessons[i]};
      }
      pairs := pairs + PairsOf(leaving, lessons[i]);
      done := done + {lessons[i]};
    }
    WholeCount(r, lessons, done, chosen, add, remove, pairs, adds, removes, touched);
    counts := Counts(|touched|, adds, removes);
  }

  predicate CountedPairs(r: Rolls, done: set<nat>, add: set<nat>, remove: set<nat>, pairs: set<Pair>, adds: nat, removes: nat, touched: set<nat>) {
    pairs == GonePairs(r, done, remove) && Tallied(r, done, add, remove, adds, removes, touched)
  }

  lemma CountStep(r: Rolls, done: set<nat>, l: nat, add: set<nat>, remove: set<nat>, pairs: set<Pair>, adds: nat, removes: nat, touched: set<nat>)
    requires CountedPairs(r, done, add, remove, pairs, adds, removes, touched) && l !in done
    ensures var a, b := |Fresh(r, l, add)|, |Leaving(r, l, remove)|;
      CountedPairs(r, done + {l}, add, remove, pairs + PairsOf(Leaving(r, l, remove), l), adds + a, removes + b,
                   if a > 0 || b > 0 then touched + {l} else touched)
  {
    OneMoreTaken(r, done, l, remove);
    TallyStep(r, done, l, add, remove, adds, removes, touched);
  }

  lemma WholeCount(r: Rolls, lessons: seq<nat>, done: set<nat>, chosen: set<nat>, add: set<nat>, remove: set<nat>, pairs: set<Pair>, adds: nat, removes: nat, touched: set<nat>)
    requires done == Ids(lessons[..|lessons|]) && forall x :: x in lessons <==> x in chosen
    requires CountedPairs(r, done, add, remove, pairs, adds, removes, touched)
    ensures pairs == GonePairs(r, chosen, remove)
    ensures Counts(|touched|, adds, removes) == Foretold(r, chosen, add, remove).counts
  {
    assert lessons[..|lessons|] == lessons && done == chosen;
  }

  lemma NothingChosen(r: Rolls, add: set<nat>, remove: set<nat>)
    ensures NewPairs(r, {}, add) == {} && GonePairs(r, {}, remove) == {} && TouchedLessons(r, {}, add, remove) == {}
  {
  }

  // ----- carrying an edit out -----

  predicate Serves(s: School, g: Register)
    reads g
  {
    s.catalog == g.catalog && ValidSchool(s)
  }

  lemma GivenOne(s: School, given: set<Pair>, p: Pair)
    requires forall q :: q in given + {p} ==> q.teacher in s.accounts && q.lesson in s.catalog
    ensures NewSeats(s, given + {p})
      == NewSeats(s, given) + ClassesOf(p.teacher, p.lesson, Sections.SectionsFor(s.accounts[p.teacher].sections, s.catalog[p.lesson].grade))
  {
  }

  lemma GiveOne(held: map<Pair, Origin>, given: set<Pair>, p: Pair)
    requires p !in held && p !in given
    ensures GiveByHand(held, given + {p}) == GiveByHand(held, given)[p := Manual]
    ensures |GiveByHand(held, given + {p})| == |GiveByHand(held, given)| + 1
  {
  }

  /** Give one lesson to one teacher, with a row for each class she takes of its grade. */
  method GiveTeacher(school: School, g: Register, p: Pair)
    requires Serves(school, g) && p.lesson in school.catalog && p.teacher in school.accounts
    modifies g`held, g`progress
    ensures g.held == old(g.held)[p := Manual]
    ensures g.progress == WithSeats(old(g.progress), NewSeats(school, {p}))
  {
    var t := school.accounts[p.teacher];
    g.held := g.held[p := Manual];
    var _ := g.EnsureProgress(t, [p.lesson]);
    GivenOne(school, {}, p);
    assert [p.lesson][..0] == [];
    assert SeatsOf(g.catalog, t, [p.lesson]) == NewSeats(school, {p});
  }

  lemma GiveStep(s: School, held: map<Pair, Origin>, progress: map<Seat, Progress>, given: set<Pair>, p: Pair)
    requires forall q :: q in given + {p} ==> q.teacher in s.accounts && q.lesson in s.catalog
    requires p !in held && p !in given
    ensures GiveByHand(held, given + {p}) == GiveByHand(held, given)[p := Manual]
    ensures WithSeats(progress, NewSeats(s, given + {p})) == WithSeats(WithSeats(progress, NewSeats(s, given)), NewSeats(s, {p}))
  {
    GiveOne(held, given, p);
    SeatsTwice(progress, NewSeats(s, given), NewSeats(s, {p}));
    SeatsOfBoth(s, given, {p});
  }

  lemma SeatsOfBoth(s: School, one: set<Pair>, other: set<Pair>)
    requires forall q :: q in one + other ==> q.teacher in s.accounts && q.lesson in s.catalog
    ensures NewSeats(s, one + other) == NewSeats(s, one) + NewSeats(s, other)
  {
  }

  /** Give one lesson to some teachers who do not hold it, with a row for each class. */
  method GiveLesson(school: School, g: Register, lesson: nat, teachers: set<nat>)
    requires Serves(school, g) && lesson in school.catalog && teachers <= school.accounts.Keys
    requires forall t :: t in teachers ==> Pair(t, lesson) !in g.held
    modifies g`held, g`progress
    ensures g.held == GiveByHand(old(g.held), PairsOf(teachers, lesson))
    ensures g.progress == WithSeats(old(g.progress), NewSeats(school, PairsOf(teachers, lesson)))
  {
    var order := Sets.Enumerate(teachers);
    GiveNobody(school, g.held, g.progress, lesson);
    for i := 0 to |order|
      invariant Ids(order[..i]) <= teachers
      invariant g.held == GiveByHand(old(g.held), PairsOf(Ids(order[..i]), lesson))
      invariant g.progress == WithSeats(old(g.progress), NewSeats(school, PairsOf(Ids(order[..i]), lesson)))
    {
      OneMoreId(order, i);
      assert order[i] in teachers;
      PairsGrow(Ids(order[..i]), order[i], lesson);
      GiveStep(school, old(g.held), old(g.progress), PairsOf(Ids(order[..i]), lesson), Pair(order[i], lesson));
      GiveTeacher(school, g, Pair(order[i], lesson));
    }
    assert order[..|order|] == order && Ids(order) == teachers;
  }

  lemma GiveNobody(s: School, held: map<Pair, Origin>, progress: map<Seat, Progress>, lesson: nat)
    ensures GiveByHand(held, PairsOf({}, lesson)) == held && WithSeats(progress, NewSeats(s, PairsOf({}, lesson))) == progress
  {
  }

  lemma PairsGrow(teachers: set<nat>, t: nat, lesson: nat)
    ensures PairsOf(teachers + {t}, lesson) == PairsOf(teachers, lesson) + {Pair(t, lesson)}
  {
  }

  lemma EditOne(s: School, r: Rolls, lesson: nat, add: set<nat>, remove: set<nat>)
    requires Applies(s, {lesson}, add)
    ensures NewPairs(r, {lesson}, add) == PairsOf(Fresh(r, lesson, add), lesson)
    ensures GonePairs(r, {lesson}, remove) == PairsOf(Leaving(r, lesson, remove), lesson)
  {
  }

  /** The whole of an edit for one lesson. */
  method EditLesson(school: School, g: Register, lesson: nat, add: set<nat>, remove: set<nat>) returns (adds: nat, removes: nat)
    requires Serves(school, g) && Applies(school, {lesson}, add)
    modifies g`held, g`progress
    ensures g.Current() == Edited(school, old(g.Current()), {lesson}, add, remove)
    ensures adds == |Fresh(old(g.Current()), lesson, add)| && removes == |Leaving(old(g.Current()), lesson, remove)|
  {
    ghost var r := g.Current();
    EditOne(school, r, lesson, add, remove);
    var arriving := Fresh(g.Current(), lesson, add);
    var leaving := Leaving(g.Current(), lesson, remove);
    GiveLesson(school, g, lesson, arriving);
    ghost var held, progress := g.held, g.progress;
    var gone := PairsOf(leaving, lesson);
    g.held := g.held - gone;
    g.progress := map k | k in g.progress && PairOf(k) !in gone :: g.progress[k];
    assert g.held == HeldBut(held, gone);
    assert g.progress == RowsBut(progress, gone);
    adds, removes := |arriving|, |leaving|;
  }

  lemma HeldTwice(held: map<Pair, Origin>, a: set<Pair>, b: set<Pair>, c: set<Pair>, d: set<Pair>)
    requires b !! c
    ensures HeldBut(GiveByHand(HeldBut(GiveByHand(held, a), b), c), d) == HeldBut(GiveByHand(held, a + c), b + d)
  {
  }

  lemma RowsTwice(progress: map<Seat, Progress>, a: set<Seat>, b: set<Pair>, c: set<Seat>, d: set<Pair>)
    requires forall k :: k in c ==> PairOf(k) !in b
    ensures RowsBut(WithSeats(RowsBut(WithSeats(progress, a), b), c), d) == RowsBut(WithSeats(progress, a + c), b + d)
  {
  }

  lemma SameElsewhere(s: School, r: Rolls, done: set<nat>, lesson: nat, add: set<nat>, remove: set<nat>)
    requires Applies(s, done, add) && lesson !in done
    ensures var one := Edited(s, r, done, add, remove);
      && Fresh(one, lesson, add) == Fresh(r, lesson, add)
      && Leaving(one, lesson, remove) == Leaving(r, lesson, remove)
  {
    var one := Edited(s, r, done, add, remove);
    assert forall t :: Pair(t, lesson) in one.held <==> Pair(t, lesson) in r.held;
  }

  /** Editing lesson by lesson is editing all at once. */
  lemma EditLessonByLesson(s: School, r: Rolls, done: set<nat>, lesson: nat, add: set<nat>, remove: set<nat>)
    requires Applies(s, done + {lesson}, add) && lesson !in done && add !! remove
    ensures Edited(s, Edited(s, r, done, add, remove), {lesson}, add, remove) == Edited(s, r, done + {lesson}, add, remove)
  {
    var one := Edited(s, r, done, add, remove);
    SameElsewhere(s, r, done, lesson, add, remove);
    OneMoreLesson(r, done, lesson, add, remove);
    EditOne(s, one, lesson, add, remove);
    var a, b := NewPairs(r, done, add), GonePairs(r, done, remove);
    var c, d := PairsOf(Fresh(r, lesson, add), lesson), PairsOf(Leaving(r, lesson, remove), lesson);
    SeatsOfBoth(s, a, c);
    HeldTwice(r.held, a, b, c, d);
    RowsTwice(r.progress, NewSeats(s, a), b, NewSeats(s, c), d);
  }

  /** How far an edit has come once it has dealt with the lessons in `done`. */
  predicate Partway(s: School, r: Rolls, now: Rolls, done: set<nat>, add: set<nat>, remove: set<nat>, adds: nat, removes: nat, touched: set<nat>) {
    && Applies(s, done, add)
    && now == Edited(s, r, done, add, remove)
    && Tallied(r, done, add, remove, adds, removes, touched)
  }

  lemma OneLessonFurther(s: School, r: Rolls, now: Rolls, done: set<nat>, l: nat, add: set<nat>, remove: set<nat>, adds: nat, removes: nat, touched: set<nat>)
    requires Partway(s, r, now, done, add, remove, adds, removes, touched)
    requires Applies(s, {l}, add) && l !in done && add !! remove
    ensures var a, b := |Fresh(now, l, add)|, |Leaving(now, l, remove)|;
      Partway(s, r, Edited(s, now, {l}, add, remove), done + {l}, add, remove, adds + a, removes + b, if a > 0 || b > 0 then touched + {l} else touched)
  {
    SameElsewhere(s, r, done, l, add, remove);
    EditLessonByLesson(s, r, done, l, add, remove);
    TallyStep(r, done, l, add, remove, adds, removes, touched);
  }

  lemma NothingDone(s: School, r: Rolls, add: set<nat>, remove: set<nat>)
    requires Applies(s, {}, add)
    ensures Partway(s, r, r, {}, add, remove, 0, 0, {})
  {
    NothingChosen(r, add, remove);
    NothingEdited(s, r, add, remove);
  }

  /** Apply one edit across its lessons, and say what it did. */
  method ApplyBulk(school: School, g: Register, e: Edit) returns (done: Result<Counts>)
    requires Serves(school, g)
    modifies g`held, g`progress
    ensures Resolve(school, e).Err? ==> done == Err(Resolve(school, e).problem) && g.Current() == old(g.Current())
    ensures Resolve(school, e).Ok? ==>
      && Applies(school, Chosen(school, e), e.add)
      && g.Current() == Edited(school, old(g.Current()), Chosen(school, e), e.add, e.remove)
      && done == Ok(Foretold(old(g.Current()), Chosen(school, e), e.add, e.remove).counts)
  {
    var resolved := Resolve(school, e);
    if resolved.Err? {
      return Err(resolved.problem);
    }
    assert forall x :: x in e.add && x in e.remove ==> x in e.add * e.remove;
    var counts := EditLessons(school, g, resolved.value, e.add, e.remove);
    return Ok(counts);
  }

  method EditLessons(school: School, g: Register, chosen: set<nat>, add: set<nat>, remove: set<nat>) returns (counts: Counts)
    requires Serves(school, g) && Applies(school, chosen, add) && add !! remove
    modifies g`held, g`progress
    ensures g.Current() == Edited(school, old(g.Current()), chosen, add, remove)
    ensures counts == Foretold(old(g.Current()), chosen, add, remove).counts
  {
    var lessons := Sets.Enumerate(chosen);
    ghost var r := g.Current();
    var adds, removes, touched := 0, 0, {};
    ghost var done: set<nat> := {};
    NothingDone(school, r, add, remove);
    for i := 0 to |lessons|
      invariant done == Ids(lessons[..i]) && done <= chosen
      invariant Partway(school, r, g.Current(), done, add, remove, adds, removes, touched)
    {
      OneMoreId(lessons, i);
      assert lessons[i] in chosen;
      OneLessonFurther(school, r, g.Current(), done, lessons[i], add, remove, adds, removes, touched);
      var a, b := EditLesson(school, g, lessons[i], add, remove);
      adds, removes := adds + a, removes + b;
      if a > 0 || b > 0 {
        touched := touched + {lessons[i]};
      }
      done := done + {lessons[i]};
    }
    assert lessons[..|lessons|] == lessons && done == chosen;
    counts := Counts(|touched|, adds, removes);
  }

  lemma NothingEdited(s: School, r: Rolls, add: set<nat>, remove: set<nat>)
    requires Applies(s, {}, add)
    ensures Edited(s, r, {}, add, remove) == r
  {
    NothingChosen(r, add, remove);
    NoSeats(r.progress);
    assert NewSeats(s, {}) == {};
  }

  // ----- what the preview promises -----

  /** Everything a preview counts is the difference the edit makes: the assignments that
      appear and disappear, the lessons they are of, the started rows that are lost, and whose. */
  lemma PreviewIsEffect(s: School, r: Rolls, lessons: set<nat>, add: set<nat>, remove: set<nat>)
    requires Applies(s, lessons, add) && add !! remove
    ensures var now, p := Edited(s, r, lessons, add, remove), Foretold(r, lessons, add, remove);
      && p.counts.adds == |now.held.Keys - r.held.Keys|
      && p.counts.removes == |r.held.Keys - now.held.Keys|
      && p.counts.lessons == |LessonsOf((now.held.Keys - r.held.Keys) + (r.held.Keys - now.held.Keys))|
      && p.lost == |LostRows(r, now)|
      && p.losing == Teachers(LostRows(r, now))
  {
    var now := Edited(s, r, lessons, add, remove);
    assert now.held.Keys - r.held.Keys == NewPairs(r, lessons, add);
    assert r.held.Keys - now.held.Keys == GonePairs(r, lessons, remove);
    assert LostRows(r, now) == StartedRows(r, GonePairs(r, lessons, remove));
  }

  /** Whose rows some are, and of which lessons some assignments are. */
  lemma TeachersExactly(rows: set<Seat>)
    ensures forall t :: t in Teachers(rows) <==> exists k :: k in rows && k.teacher == t
  {
  }

  lemma LessonsExactly(pairs: set<Pair>)
    ensures forall l :: l in LessonsOf(pairs) <==> exists p :: p in pairs && p.lesson == l
  {
  }

  /** The rows of work begun that an edit throws away. */
  function LostRows(r: Rolls, now: Rolls): set<Seat> {
    set k | k in r.progress && k !in now.progress && r.progress[k].status != LessonAccess.NotStarted
  }

  /** Nothing outside the teachers and lessons of an edit changes, and no row it keeps does. */
  lemma EditIsLocal(s: School, r: Rolls, lessons: set<nat>, add: set<nat>, remove: set<nat>, k: Seat)
    requires Applies(s, lessons, add) && ValidSchool(s)
    ensures var now := Edited(s, r, lessons, add, remove);
      && (k.lesson !in lessons || k.teacher !in add + remove ==>
            && (PairOf(k) in now.held <==> PairOf(k) in r.held)
            && (k in now.progress <==> k in r.progress))
      && (PairOf(k) in now.held && PairOf(k) in r.held ==> now.held[PairOf(k)] == r.held[PairOf(k)])
      && (k in now.progress && k in r.progress ==> now.progress[k] == r.progress[k])
  {
  }

  /** Unlike a prune, an edit by hand leaves requests alone: it leaves none stranded exactly
      when no request is open on an assignment it removes. */
  lemma EditStrandsRequests(s: School, r: Rolls, lessons: set<nat>, add: set<nat>, remove: set<nat>)
    requires Applies(s, lessons, add) && add !! remove && Anchored(r)
    ensures Anchored(Edited(s, r, lessons, add, remove)) <==>
      forall q :: q in r.requests && r.requests[q].pending ==> About(r.requests[q]) !in GonePairs(r, lessons, remove)
  {
  }

  /** Nothing is wrong with the edit itself: lessons, not too many different ones, and teachers, on
      one side each. */
  predicate WellPut(e: Edit) {
    && e.lessons != [] && |set l | l in e.lessons| <= 500
    && (forall t :: t in e.add ==> t !in e.remove)
    && e.add + e.remove != {}
  }

  /** An edit is accepted exactly when it is well put, all its teachers are active ones of the
      school, and one of its lessons at least is there. */
  lemma AcceptedExactly(s: School, e: Edit)
    ensures Resolve(s, e).Ok? <==>
      WellPut(e) && (forall t :: t in e.add || t in e.remove ==> t in s.active) && exists l :: l in e.lessons && l in s.catalog
    ensures Resolve(s, e) == Err(UnknownTeacher) <==> WellPut(e) && !(forall t :: t in e.add || t in e.remove ==> t in s.active)
    ensures Resolve(s, e) == Err(NotFound) <==>
      WellPut(e) && (forall t :: t in e.add || t in e.remove ==> t in s.active) && forall l :: l in e.lessons ==> l !in s.catalog
    ensures Resolve(s, e) == Err(NoLessons) <==> e.lessons == []
    ensures Resolve(s, e) == Err(TooManyLessons) <==> |set l | l in e.lessons| > 500
    ensures Resolve(s, e) == Err(NoTeachers) ==> e.add + e.remove == {}
    ensures Resolve(s, e) == Err(Overlap) ==> exists t :: t in e.add && t in e.remove
  {
    assert (set l | l in e.lessons) == Ids(e.lessons);
    assert e.lessons == [] ==> Ids(e.lessons) == {};
    assert forall t :: t in e.add && t in e.remove <==> t in e.add * e.remove;
    assert forall t :: t in e.add || t in e.remove <==> t in e.add + e.remove;
    assert forall l :: l in e.lessons && l in s.catalog <==> l in Chosen(s, e);
    assert e.add + e.remove == {} <==> e.add == {} && e.remove == {};
  }

  /** Who holds what after an accepted edit: every lesson it names that there is reaches every
      teacher it adds and leaves every teacher it removes, and no other pair changes. */
  lemma EditReachesExactly(s: School, r: Rolls, e: Edit, p: Pair)
    requires ValidSchool(s) && Resolve(s, e).Ok?
    ensures Applies(s, Resolve(s, e).value, e.add)
    ensures var after := Edited(s, r, Resolve(s, e).value, e.add, e.remove);
      p in after.held <==>
        if p.lesson in e.lessons && p.lesson in s.catalog && p.teacher in e.remove then false
        else if p.lesson in e.lessons && p.lesson in s.catalog && p.teacher in e.add then true
        else p in r.held
  {
    var chosen := Chosen(s, e);
    assert p.lesson in chosen <==> p.lesson in e.lessons && p.lesson in s.catalog;
    assert p in NewPairs(r, chosen, e.add) <==> p.teacher in e.add && p.lesson in chosen && p !in r.held by {
      assert p == Pair(p.teacher, p.lesson);
    }
    assert p.teacher in e.add && p.teacher in e.remove ==> p.teacher in e.add * e.remove;
  }

  /** A teacher is taken off a lesson she has asked for, whatever rows she has: her request stays open. */
  lemma RequestIsStranded(s: School, progress: map<Seat, Progress>)
    requires 2 in s.catalog
    ensures var r := Rolls(map[Pair(1, 2) := Manual], progress, map[0 := Request(1, 2, NO_SECTION, true)]);
      && Anchored(r)
      && !Anchored(Edited(s, r, {2}, {}, {1}))
  {
    var r := Rolls(map[Pair(1, 2) := Manual], progress, map[0 := Request(1, 2, NO_SECTION, true)]);
    assert About(r.requests[0]) in GonePairs(r, {2}, {1});
    EditStrandsRequests(s, r, {2}, {}, {1});
  }

  lemma TakeBackHeld(held: map<Pair, Origin>, pairs: set<Pair>)
    requires forall p :: p in pairs ==> p !in held
    ensures HeldBut(GiveByHand(held, pairs), pairs) == held
  {
  }

  lemma TakeBackRows(progress: map<Seat, Progress>, seats: set<Seat>, pairs: set<Pair>)
    requires forall k :: k in seats ==> PairOf(k) in pairs
    ensures RowsBut(WithSeats(progress, seats), pairs) == RowsBut(progress, pairs)
  {
  }

  lemma NoRowsTaken(progress: map<Seat, Progress>, pairs: set<Pair>)
    ensures RowsBut(progress, pairs) == progress <==> forall k :: k in progress ==> PairOf(k) !in pairs
  {
  }

  lemma NothingGiven(s: School, r: Rolls, pairs: set<Pair>)
    requires forall p :: p in pairs ==> p.teacher in s.accounts && p.lesson in s.catalog
    ensures GiveByHand(r.held, {}) == r.held && WithSeats(r.progress, NewSeats(s, {})) == r.progress
    ensures HeldBut(GiveByHand(r.held, pairs), {}) == GiveByHand(r.held, pairs)
    ensures RowsBut(WithSeats(r.progress, NewSeats(s, pairs)), {}) == WithSeats(r.progress, NewSeats(s, pairs))
  {
    assert NewSeats(s, {}) == {};
    NoSeats(r.progress);
  }

  /** The two edits, one after the other. */
  lemma TakeBack(s: School, r: Rolls, lessons: set<nat>, add: set<nat>)
    requires Applies(s, lessons, add)
    requires forall t, l :: t in add && l in lessons ==> Pair(t, l) !in r.held
    ensures Edited(s, Edited(s, r, lessons, add, {}), lessons, {}, add) == r.(progress := RowsBut(r.progress, NewPairs(r, lessons, add)))
  {
    var pairs := NewPairs(r, lessons, add);
    var given := Edited(s, r, lessons, add, {});
    assert GonePairs(r, lessons, {}) == {};
    NothingGiven(s, r, pairs);
    assert given.held == GiveByHand(r.held, pairs) && given.progress == WithSeats(r.progress, NewSeats(s, pairs));
    assert NewPairs(given, lessons, {}) == {};
    assert GonePairs(given, lessons, add) == pairs;
    NothingGiven(s, given, pairs);
    TakeBackHeld(r.held, pairs);
    TakeBackRows(r.progress, NewSeats(s, pairs), pairs);
  }

  /** Giving lessons and then taking them back is undone exactly when no row was there for
      any of those assignments before. */
  lemma GiveThenTake(s: School, r: Rolls, lessons: set<nat>, add: set<nat>)
    requires Applies(s, lessons, add)
    requires forall t, l :: t in add && l in lessons ==> Pair(t, l) !in r.held
    ensures Edited(s, Edited(s, r, lessons, add, {}), lessons, {}, add) == r
      <==> forall k :: k in r.progress ==> k.teacher !in add || k.lesson !in lessons
  {
    TakeBack(s, r, lessons, add);
    NoRowsTaken(r.progress, NewPairs(r, lessons, add));
    assert forall k: Seat :: PairOf(k) in NewPairs(r, lessons, add) <==> k.teacher in add && k.lesson in lessons;
  }
}
