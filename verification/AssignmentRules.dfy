/** What syncing and pruning amount to, in either order and for a whole school. */
module AssignmentRules {
  import opened Clock
  import opened SectionTables
  import Sections
  import LessonAccess
  import opened Assignments

  predicate Touched(r: Rolls, p: Pair) {
    !NoneTouched(r.progress, p)
  }

  lemma SyncLeavesStrips(c: Catalog, t: Teacher, r: Rolls, p: Pair)
    ensures Strips(c, t, Synced(c, t, r), p) <==> Strips(c, t, r, p)
  {
  }

  /** Neither undoes the other: pruning what was synced is syncing what was pruned. */
  lemma SyncAndPruneCommute(c: Catalog, t: Teacher, r: Rolls)
    ensures Reconciled(c, t, r) == Synced(c, t, Pruned(c, t, r))
  {
    var gone := StrippedPairs(c, t, r);
    forall p ensures Strips(c, t, Synced(c, t, r), p) <==> Strips(c, t, r, p) {
      SyncLeavesStrips(c, t, r, p);
    }
    assert StrippedPairs(c, t, Synced(c, t, r)) == gone;
    assert forall p :: p in gone ==> !Matches(c, t, p.lesson);
    if Served(t) {
      DropKeepsPairs(r.held, t.id, MatchingIds(c, t), gone);
      DropKeepsSeats(r.progress, MatchingSeats(c, t), gone);
    }
  }

  function HeldBut(held: map<Pair, Origin>, gone: set<Pair>): map<Pair, Origin> {
    map p | p in held && p !in gone :: held[p]
  }

  function RowsBut(progress: map<Seat, Progress>, gone: set<Pair>): map<Seat, Progress> {
    map k | k in progress && PairOf(k) !in gone :: progress[k]
  }

  lemma DropKeepsPairs(held: map<Pair, Origin>, teacher: nat, ids: set<nat>, gone: set<Pair>)
    requires forall id :: id in ids ==> Pair(teacher, id) !in gone
    ensures HeldBut(WithPairs(held, teacher, ids), gone) == WithPairs(HeldBut(held, gone), teacher, ids)
  {
  }

  lemma DropKeepsSeats(progress: map<Seat, Progress>, seats: set<Seat>, gone: set<Pair>)
    requires forall k :: k in seats ==> PairOf(k) !in gone
    ensures RowsBut(WithSeats(progress, seats), gone) == WithSeats(RowsBut(progress, gone), seats)
  {
  }

  /** Not a lesson for her: of a grade she does not take, in a language she does not teach in, or
      not of her school's year. */
  predicate NotForHer(t: Teacher, l: LessonAccess.Lesson) {
    || l.grade !in t.grades
    || t.language == NO_LANGUAGE || l.language == NO_LANGUAGE || (t.language != BOTH && t.language != l.language)
    || t.year.NoSchool? || t.year.y != l.year
  }

  /** Nothing in the row says that the class has begun. */
  predicate NeverOpened(p: Progress) {
    p.status == LessonAccess.NotStarted && p.percent == 0 && p.lastOpened == Never
  }

  /** What is newly given, and what is taken away, on the fields of the lesson, of the teacher
      and of her rows. */
  lemma ChangesExactly(c: Catalog, t: Teacher, r: Rolls, p: Pair)
    ensures p !in r.held ==>
      (p in Synced(c, t, r).held <==> t.isTeacher && t.active && p.teacher == t.id && p.lesson in c && !NotForHer(t, c[p.lesson]))
    ensures p in r.held ==> p in Synced(c, t, r).held && Synced(c, t, r).held[p] == r.held[p]
    ensures p !in r.held && p in Synced(c, t, r).held ==> Synced(c, t, r).held[p] == Rule
    ensures p in r.held ==>
      (p !in Pruned(c, t, r).held <==>
         (t.isTeacher && p.teacher == t.id && r.held[p] == Rule && p.lesson in c && NotForHer(t, c[p.lesson])
          && forall k :: k in r.progress && k.teacher == p.teacher && k.lesson == p.lesson ==> NeverOpened(r.progress[k])))
  {
    if p in r.held && p.lesson in c {
      assert NoneTouched(r.progress, p)
        <==> forall k :: k in r.progress && k.teacher == p.teacher && k.lesson == p.lesson ==> NeverOpened(r.progress[k]);
    }
  }

  /** A lesson the rule has just given is taken away again, with its rows, once it is no longer
      for her: nothing was begun in rows that had only been created. */
  lemma GivenIsTakenAgain(c: Catalog, later: Catalog, t: Teacher, r: Rolls, p: Pair)
    requires p !in r.held && p in Synced(c, t, r).held && p.lesson in later && NotForHer(t, later[p.lesson])
    requires forall k :: k in r.progress ==> PairOf(k) != p
    ensures var end := Pruned(later, t, Synced(c, t, r));
      p !in end.held && forall k :: k in end.progress ==> PairOf(k) != p
  {
    var given := Synced(c, t, r);
    ChangesExactly(c, t, r, p);
    ChangesExactly(later, t, given, p);
    assert p in StrippedPairs(later, t, given);
  }

  /** What a teacher the rule serves ends up holding: what matches, what was given by hand,
      and what some class has started; and nothing of anyone else's changes. */
  lemma HoldsExactly(c: Catalog, t: Teacher, r: Rolls, p: Pair)
    requires t.isTeacher
    ensures p in Reconciled(c, t, r).held <==>
      || (p.teacher != t.id && p in r.held)
      || (p.teacher == t.id && Served(t) && Matches(c, t, p.lesson))
      || (p.teacher == t.id && p in r.held
          && (r.held[p] == Manual || Touched(r, p) || p.lesson !in c || Matches(c, t, p.lesson)))
    ensures p in r.held && p in Reconciled(c, t, r).held ==> Reconciled(c, t, r).held[p] == r.held[p]
  {
  }

  /** No row any class has touched is lost or changed, and no other teacher's row is; every
      lesson the rule gives has its row in each class. */
  lemma RowsExactly(c: Catalog, t: Teacher, r: Rolls, k: Seat)
    ensures k in r.progress && (!Untouched(r.progress[k]) || k.teacher != t.id) ==> k in Reconciled(c, t, r).progress
    ensures k in r.progress && k in Reconciled(c, t, r).progress ==> Reconciled(c, t, r).progress[k] == r.progress[k]
    ensures k !in r.progress && k in Reconciled(c, t, r).progress ==> Reconciled(c, t, r).progress[k] == LessonAccess.FRESH
    ensures Served(t) && k.teacher == t.id && Matches(c, t, k.lesson) && k.section in Sections.SectionsFor(t.sections, c[k.lesson].grade)
      ==> k in Reconciled(c, t, r).progress
    ensures k in Reconciled(c, t, r).progress && k !in r.progress ==>
      Served(t) && k.teacher == t.id && Matches(c, t, k.lesson) && k.section in Sections.SectionsFor(t.sections, c[k.lesson].grade)
  {
  }

  /** A second run finds nothing to do. */
  lemma ReconcileTwice(c: Catalog, t: Teacher, r: Rolls)
    ensures Reconciled(c, t, Reconciled(c, t, r)) == Reconciled(c, t, r)
  {
    var s := Reconciled(c, t, r);
    assert Synced(c, t, s) == s by {
      SyncAndPruneCommute(c, t, r);
      SyncTwice(c, t, Pruned(c, t, r));
    }
    forall p ensures !Strips(c, t, s, p) {
      SyncLeavesStrips(c, t, r, p);
      if p in s.held {
        assert forall k :: PairOf(k) == p ==> (k in s.progress <==> k in Synced(c, t, r).progress);
        assert Strips(c, t, s, p) ==> Strips(c, t, Synced(c, t, r), p);
      }
    }
    assert StrippedPairs(c, t, s) == {};
    NothingDropped(s);
  }

  lemma PairsTwice(held: map<Pair, Origin>, teacher: nat, ids: set<nat>)
    ensures WithPairs(WithPairs(held, teacher, ids), teacher, ids) == WithPairs(held, teacher, ids)
  {
  }

  lemma SyncTwice(c: Catalog, t: Teacher, r: Rolls)
    ensures Synced(c, t, Synced(c, t, r)) == Synced(c, t, r)
  {
    if Served(t) {
      PairsTwice(r.held, t.id, MatchingIds(c, t));
      SeatsTwice(r.progress, MatchingSeats(c, t), MatchingSeats(c, t));
      assert MatchingSeats(c, t) + MatchingSeats(c, t) == MatchingSeats(c, t);
    }
  }

  // ----- requests -----

  /** Every request still open is for a lesson its teacher holds. */
  predicate Anchored(r: Rolls) {
    forall q :: q in r.requests && r.requests[q].pending ==> About(r.requests[q]) in r.held
  }

  lemma ReconcileKeepsAnchors(c: Catalog, t: Teacher, r: Rolls)
    requires Anchored(r)
    ensures Anchored(Reconciled(c, t, r))
    ensures forall q :: q in r.requests && !r.requests[q].pending ==> q in Reconciled(c, t, r).requests
  {
  }

  // ----- a whole school -----

  /** One teacher's share of the three tables. */
  function Only(r: Rolls, teacher: nat): Rolls {
    Rolls(
      map p | p in r.held && p.teacher == teacher :: r.held[p],
      map k | k in r.progress && k.teacher == teacher :: r.progress[k],
      map q | q in r.requests && r.requests[q].teacher == teacher :: r.requests[q])
  }

  lemma StripsLocally(c: Catalog, t: Teacher, r: Rolls)
    ensures StrippedPairs(c, t, r) == StrippedPairs(c, t, Only(r, t.id))
  {
  }

  lemma DropOnly(r: Rolls, gone: set<Pair>, u: nat)
    ensures Only(Dropped(r, gone), u) == Dropped(Only(r, u), gone)
  {
  }

  lemma DropOthers(r: Rolls, gone: set<Pair>, u: nat)
    requires forall p :: p in gone ==> p.teacher != u
    ensures Only(Dropped(r, gone), u) == Only(r, u)
  {
  }

  lemma PruneOnly(c: Catalog, t: Teacher, r: Rolls)
    ensures Only(Pruned(c, t, r), t.id) == Pruned(c, t, Only(r, t.id))
  {
    StripsLocally(c, t, r);
    DropOnly(r, StrippedPairs(c, t, r), t.id);
  }

  function HeldOf(held: map<Pair, Origin>, u: nat): map<Pair, Origin> {
    map p | p in held && p.teacher == u :: held[p]
  }

  function RowsOf(progress: map<Seat, Progress>, u: nat): map<Seat, Progress> {
    map k | k in progress && k.teacher == u :: progress[k]
  }

  lemma PairsOnly(held: map<Pair, Origin>, teacher: nat, ids: set<nat>, u: nat)
    ensures HeldOf(WithPairs(held, teacher, ids), u) == if teacher == u then WithPairs(HeldOf(held, u), teacher, ids) else HeldOf(held, u)
  {
  }

  lemma SeatsOnly(progress: map<Seat, Progress>, seats: set<Seat>, teacher: nat, u: nat)
    requires forall k :: k in seats ==> k.teacher == teacher
    ensures RowsOf(WithSeats(progress, seats), u) == if teacher == u then WithSeats(RowsOf(progress, u), seats) else RowsOf(progress, u)
  {
  }

  lemma SyncOnly(c: Catalog, t: Teacher, r: Rolls, u: nat)
    ensures Only(Synced(c, t, r), u) == if u == t.id then Synced(c, t, Only(r, u)) else Only(r, u)
  {
    if Served(t) {
      PairsOnly(r.held, t.id, MatchingIds(c, t), u);
      SeatsOnly(r.progress, MatchingSeats(c, t), t.id, u);
    }
  }

  lemma ReconcileOnly(c: Catalog, t: Teacher, r: Rolls)
    ensures Only(Reconciled(c, t, r), t.id) == Reconciled(c, t, Only(r, t.id))
  {
    SyncOnly(c, t, r, t.id);
    PruneOnly(c, t, Synced(c, t, r));
  }

  lemma OthersUntouched(c: Catalog, t: Teacher, r: Rolls, u: nat)
    requires u != t.id
    ensures Only(Reconciled(c, t, r), u) == Only(r, u)
  {
    SyncOnly(c, t, r, u);
    DropOthers(Synced(c, t, r), StrippedPairs(c, t, Synced(c, t, r)), u);
  }

  predicate DistinctTeachers(teachers: seq<Teacher>) {
    forall i, j :: 0 <= i < j < |teachers| ==> teachers[i].id != teachers[j].id
  }

  lemma ReconcileShare(c: Catalog, t: Teacher, r: Rolls, u: nat)
    ensures Only(Reconciled(c, t, r), u) == if t.id == u then Reconciled(c, t, Only(r, u)) else Only(r, u)
  {
    if t.id == u {
      ReconcileOnly(c, t, r);
    } else {
      OthersUntouched(c, t, r, u);
    }
  }

  lemma {:induction false} ResyncLeavesOthers(c: Catalog, teachers: seq<Teacher>, r: Rolls, u: nat)
    requires forall i :: 0 <= i < |teachers| ==> teachers[i].id != u
    ensures Only(AllReconciled(c, teachers, r), u) == Only(r, u)
  {
    if teachers != [] {
      ResyncLeavesOthers(c, teachers[..|teachers| - 1], r, u);
      ReconcileShare(c, teachers[|teachers| - 1], AllReconciled(c, teachers[..|teachers| - 1], r), u);
    }
  }

  /** A resync treats each teacher of the school as if alone, whatever order they come in. */
  lemma {:induction false} ResyncIsPerTeacher(c: Catalog, teachers: seq<Teacher>, r: Rolls, i: nat)
    requires DistinctTeachers(teachers) && i < |teachers|
    ensures Only(AllReconciled(c, teachers, r), teachers[i].id) == Reconciled(c, teachers[i], Only(r, teachers[i].id))
  {
    if i < |teachers| - 1 {
      ResyncIsPerTeacher(c, teachers[..|teachers| - 1], r, i);
    } else {
      ResyncLeavesOthers(c, teachers[..|teachers| - 1], r, teachers[i].id);
    }
    ReconcileShare(c, teachers[|teachers| - 1], AllReconciled(c, teachers[..|teachers| - 1], r), teachers[i].id);
  }

  lemma SameShares(r: Rolls, s: Rolls)
    requires forall u: nat :: Only(r, u) == Only(s, u)
    ensures r == s
  {
    assert r.held == s.held by {
      forall p ensures (p in r.held <==> p in s.held) && (p in r.held && p in s.held ==> r.held[p] == s.held[p]) {
        assert Only(r, p.teacher) == Only(s, p.teacher);
        assert p in r.held <==> p in Only(r, p.teacher).held;
        assert p in s.held <==> p in Only(s, p.teacher).held;
      }
    }
    assert r.progress == s.progress by {
      forall k ensures (k in r.progress <==> k in s.progress) && (k in r.progress && k in s.progress ==> r.progress[k] == s.progress[k]) {
        assert Only(r, k.teacher) == Only(s, k.teacher);
        assert k in r.progress <==> k in Only(r, k.teacher).progress;
        assert k in s.progress <==> k in Only(s, k.teacher).progress;
      }
    }
    assert r.requests == s.requests by {
      forall q ensures (q in r.requests <==> q in s.requests) && (q in r.requests && q in s.requests ==> r.requests[q] == s.requests[q]) {
        if q in r.requests {
          assert q in Only(r, r.requests[q].teacher).requests;
          assert q in Only(s, r.requests[q].teacher).requests;
        }
        if q in s.requests {
          assert q in Only(s, s.requests[q].teacher).requests;
          assert q in Only(r, s.requests[q].teacher).requests;
        }
      }
    }
  }

  /** So the order the teachers are walked in does not matter. */
  lemma ResyncOrderIrrelevant(c: Catalog, one: seq<Teacher>, other: seq<Teacher>, r: Rolls)
    requires DistinctTeachers(one) && DistinctTeachers(other)
    requires forall t :: t in one <==> t in other
    ensures AllReconciled(c, one, r) == AllReconciled(c, other, r)
  {
    forall u: nat ensures Only(AllReconciled(c, one, r), u) == Only(AllReconciled(c, other, r), u) {
      if i :| 0 <= i < |one| && one[i].id == u {
        assert one[i] in other;
        var j :| 0 <= j < |other| && other[j] == one[i];
        ResyncIsPerTeacher(c, one, r, i);
        ResyncIsPerTeacher(c, other, r, j);
      } else {
        forall j | 0 <= j < |other| ensures other[j].id != u {
          assert other[j] in one;
        }
        ResyncLeavesOthers(c, one, r, u);
        ResyncLeavesOthers(c, other, r, u);
      }
    }
    SameShares(AllReconciled(c, one, r), AllReconciled(c, other, r));
  }
}
