/** The whole section edit: renames, then the step that lets existing work follow a
    grade's first class. */
module SectionEdits {
  import opened SectionTables
  import opened SectionRenames
  import opened HoldingLabels

  function First(sections: ClassLists, grade: int): Label {
    if Labels(sections, grade) == [] then NO_SECTION else Labels(sections, grade)[0]
  }

  function AdoptMove(before: ClassLists, after: ClassLists, grade: int): Move {
    Move(grade, First(before, grade), First(after, grade))
  }

  /** One move per grade, in whatever order the grades are walked. */
  function AdoptMoves(before: ClassLists, after: ClassLists, order: seq<int>): seq<Move> {
    seq(|order|, i requires 0 <= i < |order| => AdoptMove(before, after, order[i]))
  }

  ghost function Adopt(g: Grades, s: Tables, teacher: nat, before: ClassLists, after: ClassLists, order: seq<int>): Tables {
    Pass(g, s, teacher, AdoptMoves(before, after, order))
  }

  /** Adopting moves a lesson's rows only from the old first label, only to the new one,
      and only when the new one holds nothing for that lesson. */
  lemma AdoptLanding(g: Grades, s: Tables, teacher: nat, before: ClassLists, after: ClassLists, order: seq<int>, lesson: nat, name: Label)
    requires lesson in g
    ensures Landing(g, s, teacher, AdoptMoves(before, after, order), lesson, name)
         == if g[lesson] in order && name == First(before, g[lesson]) && !Holds(s, teacher, lesson, First(after, g[lesson]))
            then First(after, g[lesson]) else name
  {
    var es := AdoptMoves(before, after, order);
    var i := DecidingMove(g, s, teacher, es, lesson, name);
    if g[lesson] in order {
      var k :| 0 <= k < |order| && order[k] == g[lesson];
      assert es[k] == AdoptMove(before, after, g[lesson]);
      assert Carries(g, s, teacher, es[k], lesson, name)
        <==> name == First(before, g[lesson]) && !Holds(s, teacher, lesson, First(after, g[lesson]));
    }
  }

  lemma SameTables(s: Tables, t: Tables)
    requires forall m :: 0 <= m < MODELS ==> |s[m]| == |t[m]| && forall k :: 0 <= k < |s[m]| ==> s[m][k] == t[m][k]
    ensures s == t
  {
    assert forall m :: 0 <= m < MODELS ==> s[m] == t[m];
  }

  /** Adopting keeps the rooms of any tables, for any edit. */
  lemma AdoptKeepsRooms(g: Grades, s: Tables, teacher: nat, before: ClassLists, after: ClassLists, order: seq<int>)
    ensures OnlyLabels(s, Adopt(g, s, teacher, before, after, order), teacher)
    ensures SameRooms(s, Adopt(g, s, teacher, before, after, order))
  {
    var es := AdoptMoves(before, after, order);
    PassKeepsRows(g, s, teacher, es);
    forall lesson, x, y | Holds(s, teacher, lesson, x) && Holds(s, teacher, lesson, y) && x != y
      ensures Landing(g, s, teacher, es, lesson, x) != Landing(g, s, teacher, es, lesson, y)
    {
      if lesson in g {
        AdoptLanding(g, s, teacher, before, after, order, lesson, x);
        AdoptLanding(g, s, teacher, before, after, order, lesson, y);
      } else {
        NoMovesOutside(g, s, teacher, es, lesson, x);
        NoMovesOutside(g, s, teacher, es, lesson, y);
      }
    }
    PassRooms(g, s, teacher, es);
  }

  /** The order the grades are walked in does not matter. */
  lemma AdoptOrderIrrelevant(g: Grades, s: Tables, teacher: nat, before: ClassLists, after: ClassLists, a: seq<int>, b: seq<int>)
    requires forall grade :: grade in a <==> grade in b
    ensures Adopt(g, s, teacher, before, after, a) == Adopt(g, s, teacher, before, after, b)
  {
    forall lesson, name ensures Landing(g, s, teacher, AdoptMoves(before, after, a), lesson, name)
                             == Landing(g, s, teacher, AdoptMoves(before, after, b), lesson, name)
    {
      if lesson in g {
        AdoptLanding(g, s, teacher, before, after, a, lesson, name);
        AdoptLanding(g, s, teacher, before, after, b, lesson, name);
      } else {
        NoMovesOutside(g, s, teacher, AdoptMoves(before, after, a), lesson, name);
        NoMovesOutside(g, s, teacher, AdoptMoves(before, after, b), lesson, name);
      }
    }
    var x, y := Adopt(g, s, teacher, before, after, a), Adopt(g, s, teacher, before, after, b);
    forall m | 0 <= m < MODELS ensures |x[m]| == |y[m]| && forall k :: 0 <= k < |x[m]| ==> x[m][k] == y[m][k] {
      PassAt(g, s, teacher, AdoptMoves(before, after, a), m);
      PassAt(g, s, teacher, AdoptMoves(before, after, b), m);
    }
    SameTables(x, y);
  }

  /** Some lesson has history under the new first label and none under the old one. */
  ghost predicate Stranded(g: Grades, s: Tables, teacher: nat, before: ClassLists, after: ClassLists, order: seq<int>) {
    exists lesson ::
      && lesson in g && g[lesson] in order
      && First(before, g[lesson]) != First(after, g[lesson])
      && Holds(s, teacher, lesson, First(after, g[lesson]))
      && !Holds(s, teacher, lesson, First(before, g[lesson]))
  }

  lemma ThereAndBack(g: Grades, s: Tables, teacher: nat, before: ClassLists, after: ClassLists, order: seq<int>, lesson: nat, name: Label)
    requires Holds(s, teacher, lesson, name) && lesson in g
    ensures Landing(g, Adopt(g, s, teacher, before, after, order), teacher, AdoptMoves(after, before, order), lesson,
                    Landing(g, s, teacher, AdoptMoves(before, after, order), lesson, name))
         == if g[lesson] in order && name == First(after, g[lesson]) && !Holds(s, teacher, lesson, First(before, g[lesson]))
            then First(before, g[lesson]) else name
  {
    var prior, next := First(before, g[lesson]), First(after, g[lesson]);
    var t := Adopt(g, s, teacher, before, after, order);
    forall x ensures Landing(g, s, teacher, AdoptMoves(before, after, order), lesson, x)
                  == if g[lesson] in order && x == prior && !Holds(s, teacher, lesson, next) then next else x {
      AdoptLanding(g, s, teacher, before, after, order, lesson, x);
    }
    HoldsAfterPass(g, s, teacher, AdoptMoves(before, after, order), lesson, prior);
    AdoptLanding(g, t, teacher, after, before, order, lesson, Landing(g, s, teacher, AdoptMoves(before, after, order), lesson, name));
    if g[lesson] in order && name == prior && !Holds(s, teacher, lesson, next) {
      assert !Holds(t, teacher, lesson, prior);
    } else if g[lesson] in order && name == next && Holds(s, teacher, lesson, prior) && prior != next {
      assert Landing(g, s, teacher, AdoptMoves(before, after, order), lesson, prior) == prior;
    }
  }

  /** Naming classes and then taking the names away again restores every row exactly when
      no lesson was stranded under the new first label. */
  lemma AdoptRoundTrip(g: Grades, s: Tables, teacher: nat, before: ClassLists, after: ClassLists, order: seq<int>)
    ensures Adopt(g, Adopt(g, s, teacher, before, after, order), teacher, after, before, order) == s
       <==> !Stranded(g, s, teacher, before, after, order)
  {
    var t := Adopt(g, s, teacher, before, after, order);
    var u := Adopt(g, t, teacher, after, before, order);
    var out, back := AdoptMoves(before, after, order), AdoptMoves(after, before, order);
    forall m, k | 0 <= m < MODELS && 0 <= k < |s[m]|
      ensures |u[m]| == |s[m]|
      ensures u[m][k] == if s[m][k].teacher == teacher
                         then s[m][k].(section := Landing(g, t, teacher, back, s[m][k].lesson, Landing(g, s, teacher, out, s[m][k].lesson, s[m][k].section)))
                         else s[m][k]
      ensures s[m][k].teacher == teacher ==> Holds(s, teacher, s[m][k].lesson, s[m][k].section)
    {
      PassAt(g, s, teacher, out, m);
      PassAt(g, t, teacher, back, m);
      if s[m][k].teacher == teacher {
        assert Under(s[m][k], teacher, s[m][k].lesson, s[m][k].section);
      }
    }
    forall m | 0 <= m < MODELS ensures |u[m]| == |s[m]| {
      PassAt(g, s, teacher, out, m);
      PassAt(g, t, teacher, back, m);
    }
    if Stranded(g, s, teacher, before, after, order) {
      var lesson :| lesson in g && g[lesson] in order && First(before, g[lesson]) != First(after, g[lesson])
        && Holds(s, teacher, lesson, First(after, g[lesson])) && !Holds(s, teacher, lesson, First(before, g[lesson]));
      var m, k :| 0 <= m < MODELS && 0 <= k < |s[m]| && Under(s[m][k], teacher, lesson, First(after, g[lesson]));
      ThereAndBack(g, s, teacher, before, after, order, lesson, First(after, g[lesson]));
      assert u[m][k] != s[m][k];
    } else {
      forall m, k | 0 <= m < MODELS && 0 <= k < |s[m]| ensures u[m][k] == s[m][k] {
        var r := s[m][k];
        if r.teacher == teacher {
          if r.lesson in g {
            ThereAndBack(g, s, teacher, before, after, order, r.lesson, r.section);
          } else {
            NoMovesOutside(g, s, teacher, out, r.lesson, r.section);
            NoMovesOutside(g, t, teacher, back, r.lesson, r.section);
          }
        }
      }
      SameTables(u, s);
    }
  }

  // ----- the rewritten picture against the rows -----

  /** What the first `n` steps of the picture's running rewrite make of one label. */
  function FoldTo(moves: seq<Move>, n: nat, grade: int, name: Label): Label
    requires n <= |moves|
  {
    if n == 0 then name
    else
      var x := FoldTo(moves, n - 1, grade, name);
      if moves[n - 1].grade == grade && moves[n - 1].source == x then moves[n - 1].target else x
  }

  function FoldLabel(moves: seq<Move>, grade: int, name: Label): Label {
    FoldTo(moves, |moves|, grade, name)
  }

  lemma {:induction false} FoldPrefix(moves: seq<Move>, more: seq<Move>, n: nat, grade: int, name: Label)
    requires n <= |moves| <= |more| && more[..|moves|] == moves
    ensures FoldTo(more, n, grade, name) == FoldTo(moves, n, grade, name)
  {
    if n > 0 {
      FoldPrefix(moves, more, n - 1, grade, name);
      assert more[n - 1] == moves[n - 1];
    }
  }

  /** No rename starts from the label an earlier rename of the grade ended on. */
  predicate NoChain(moves: seq<Move>) {
    forall i, j :: 0 <= i < j < |moves| && moves[i].grade == moves[j].grade ==> moves[i].target != moves[j].source
  }

  lemma {:induction false} FoldWithoutChain(moves: seq<Move>, grade: int, name: Label)
    requires DistinctSources(moves) && NoChain(moves)
    ensures FoldLabel(moves, grade, name) == Relabel(moves, grade, name)
  {
    if moves != [] {
      var p := moves[..|moves| - 1];
      assert forall i :: 0 <= i < |p| ==> p[i] == moves[i];
      FoldWithoutChain(p, grade, name);
      FoldPrefix(p, moves, |p|, grade, name);
      var i := LastFrom(p, grade, name);
      if i >= 0 {
        assert moves[i].target != moves[|moves| - 1].source || moves[|moves| - 1].grade != grade;
      }
    }
  }

  /** Renames between `lo` and `hi` that do not start from where the label stands leave it there. */
  lemma {:induction false} FoldRests(moves: seq<Move>, lo: nat, hi: nat, grade: int, name: Label)
    requires lo <= hi <= |moves|
    requires forall k :: lo <= k < hi && moves[k].grade == grade ==> moves[k].source != FoldTo(moves, lo, grade, name)
    ensures FoldTo(moves, hi, grade, name) == FoldTo(moves, lo, grade, name)
  {
    if lo < hi {
      FoldRests(moves, lo, hi - 1, grade, name);
    }
  }

  /** What the picture makes of a label at the start of a chain with no later link. */
  lemma FoldChain(moves: seq<Move>, i: nat, j: nat)
    requires DistinctSources(moves)
    requires i < j < |moves| && moves[i].grade == moves[j].grade && moves[i].target == moves[j].source
    requires forall b :: j < b < |moves| && moves[b].grade == moves[j].grade ==> moves[j].target != moves[b].source
    ensures FoldLabel(moves, moves[i].grade, moves[i].source) == moves[j].target
  {
    var grade, name := moves[i].grade, moves[i].source;
    FoldRests(moves, 0, i, grade, name);
    FoldRests(moves, i + 1, j, grade, name);
    FoldRests(moves, j + 1, |moves|, grade, name);
  }

  lemma SomeChainDisagrees(moves: seq<Move>, i: nat, j: nat)
    requires DistinctSources(moves) && Changing(moves)
    requires i < j < |moves| && moves[i].grade == moves[j].grade && moves[i].target == moves[j].source
    ensures exists grade, name :: FoldLabel(moves, grade, name) != Relabel(moves, grade, name)
    decreases |moves| - i
  {
    if a, b :| i < a < b < |moves| && moves[a].grade == moves[b].grade && moves[a].target == moves[b].source {
      SomeChainDisagrees(moves, a, b);
    } else {
      FoldChain(moves, i, j);
      OnlyMoveFrom(moves, i);
    }
  }

  /** The rewritten picture agrees with the rows' relabelling on every label exactly when
      no rename starts where an earlier one ended; a swap is such a chain. */
  lemma RewriteAgreesExactly(moves: seq<Move>)
    requires DistinctSources(moves) && Changing(moves)
    ensures NoChain(moves) <==> forall grade, name :: FoldLabel(moves, grade, name) == Relabel(moves, grade, name)
  {
    if NoChain(moves) {
      forall grade, name ensures FoldLabel(moves, grade, name) == Relabel(moves, grade, name) {
        FoldWithoutChain(moves, grade, name);
      }
    } else {
      var i, j :| 0 <= i < j < |moves| && moves[i].grade == moves[j].grade && moves[i].target == moves[j].source;
      SomeChainDisagrees(moves, i, j);
    }
  }

  /** An accepted plan holds only real renames, each onto a label the edit kept, and its
      picture is the old one with every label folded through them. */
  lemma {:induction false} PlanRewrites(renames: seq<Move>, before: ClassLists, after: ClassLists)
    requires Plan(renames, before, after).Planned?
    ensures var p := Plan(renames, before, after);
      && Changing(p.moves)
      && (forall i :: 0 <= i < |p.moves| ==> p.moves[i] in renames && p.moves[i].target in Labels(after, p.moves[i].grade))
      && p.rewritten.Keys == before.Keys
      && forall grade :: grade in before ==>
           |p.rewritten[grade]| == |before[grade]|
           && forall k :: 0 <= k < |before[grade]| ==> p.rewritten[grade][k] == FoldLabel(p.moves, grade, before[grade][k])
  {
    if renames != [] {
      var q := renames[..|renames| - 1];
      PlanRewrites(q, before, after);
      var p := Plan(renames, before, after);
      var e := renames[|renames| - 1];
      if e.source != e.target {
        var shorter := Plan(q, before, after).moves;
        forall grade, name ensures FoldTo(p.moves, |shorter|, grade, name) == FoldLabel(shorter, grade, name) {
          FoldPrefix(shorter, p.moves, |shorter|, grade, name);
        }
      }
    }
  }

  /** The picture, once some renames have rewritten it, has a class of this name. */
  predicate InPicture(before: ClassLists, renames: seq<Move>, grade: int, name: Label) {
    exists k :: 0 <= k < |Labels(before, grade)| && FoldLabel(renames, grade, Labels(before, grade)[k]) == name
  }

  /** A rename can be carried out after those before it: it goes to a class the edit kept, from
      one that is in the picture by then. */
  predicate CanFollow(renames: seq<Move>, before: ClassLists, after: ClassLists, i: nat)
    requires i < |renames|
  {
    renames[i].source != renames[i].target ==>
      renames[i].target in Labels(after, renames[i].grade) && InPicture(before, renames[..i], renames[i].grade, renames[i].source)
  }

  /** Renames that change nothing rewrite nothing. */
  lemma {:induction false} FoldOfPlan(renames: seq<Move>, before: ClassLists, after: ClassLists, grade: int, name: Label)
    requires Plan(renames, before, after).Planned?
    ensures FoldLabel(Plan(renames, before, after).moves, grade, name) == FoldLabel(renames, grade, name)
  {
    if renames != [] {
      var q, e := renames[..|renames| - 1], renames[|renames| - 1];
      FoldOfPlan(q, before, after, grade, name);
      FoldPrefix(q, renames, |q|, grade, name);
      var shorter, moves := Plan(q, before, after).moves, Plan(renames, before, after).moves;
      if e.source != e.target {
        FoldPrefix(shorter, moves, |shorter|, grade, name);
      }
    }
  }

  lemma PictureOfPlan(renames: seq<Move>, before: ClassLists, after: ClassLists, grade: int, name: Label)
    requires Plan(renames, before, after).Planned?
    ensures name in Labels(Plan(renames, before, after).rewritten, grade) <==> InPicture(before, renames, grade, name)
  {
    PlanRewrites(renames, before, after);
    forall k | 0 <= k < |Labels(before, grade)|
      ensures Labels(Plan(renames, before, after).rewritten, grade)[k] == FoldLabel(renames, grade, Labels(before, grade)[k])
    {
      FoldOfPlan(renames, before, after, grade, Labels(before, grade)[k]);
    }
  }

  /** A list of renames is accepted exactly when each can follow those before it. */
  lemma {:induction false} PlanAcceptsExactly(renames: seq<Move>, before: ClassLists, after: ClassLists)
    ensures Plan(renames, before, after).Planned? <==> forall i :: 0 <= i < |renames| ==> CanFollow(renames, before, after, i)
  {
    if renames != [] {
      var q, n := renames[..|renames| - 1], |renames| - 1;
      PlanAcceptsExactly(q, before, after);
      forall i | 0 <= i < n ensures CanFollow(renames, before, after, i) <==> CanFollow(q, before, after, i) {
        assert renames[..i] == q[..i];
      }
      if Plan(q, before, after).Planned? {
        PictureOfPlan(q, before, after, renames[n].grade, renames[n].source);
        assert Plan(renames, before, after).Planned? <==> CanFollow(renames, before, after, n);
        assert forall i :: 0 <= i < n ==> CanFollow(q, before, after, i);
      } else {
        var i :| 0 <= i < n && !CanFollow(q, before, after, i);
        assert !CanFollow(renames, before, after, i);
      }
    }
  }

  /** Where one of some renames ends on a label of a grade. */
  predicate EndsOn(renames: seq<Move>, k: nat, grade: int, name: Label) {
    k < |renames| && renames[k].grade == grade && renames[k].target == name && renames[k].source != name
  }

  lemma {:induction false} GoneUnlessNamedAgain(renames: seq<Move>, i: nat, n: nat, grade: int, name: Label, x: Label)
    requires i < n <= |renames| && renames[i].grade == grade && renames[i].source == name != renames[i].target
    requires FoldTo(renames, n, grade, x) == name
    ensures exists k :: i < k < n && EndsOn(renames, k, grade, name)
  {
    if i < n - 1 && FoldTo(renames, n - 1, grade, x) == name {
      GoneUnlessNamedAgain(renames, i, n - 1, grade, name, x);
    } else {
      assert i < n - 1 ==> EndsOn(renames, n - 1, grade, name);
    }
  }

  /** One class cannot be renamed twice, unless another was renamed to it in between. */
  lemma RenamedOnce(renames: seq<Move>, before: ClassLists, after: ClassLists, i: nat, j: nat)
    requires Plan(renames, before, after).Planned? && i < j < |renames|
    requires renames[i].grade == renames[j].grade && renames[i].source == renames[j].source
    requires renames[i].source != renames[i].target && renames[j].source != renames[j].target
    ensures exists k :: i < k < j && EndsOn(renames, k, renames[i].grade, renames[i].source)
  {
    var grade, name, q := renames[i].grade, renames[i].source, renames[..j];
    PlanAcceptsExactly(renames, before, after);
    assert CanFollow(renames, before, after, j);
    var m :| 0 <= m < |Labels(before, grade)| && FoldLabel(q, grade, Labels(before, grade)[m]) == name;
    GoneUnlessNamedAgain(q, i, j, grade, name, Labels(before, grade)[m]);
    var k :| i < k < j && EndsOn(q, k, grade, name);
    assert EndsOn(renames, k, grade, name);
  }

  // ----- the edit as a whole -----

  /** The rows after the renames and then the adopt step. */
  ghost function Edited(g: Grades, s: Tables, teacher: nat, moves: seq<Move>, rewritten: ClassLists, after: ClassLists, order: seq<int>): Tables {
    Adopt(g, TwoPass(g, s, teacher, moves), teacher, rewritten, after, order)
  }

  /** The edit ends with each grade's first class being the renamed old first class. */
  predicate FirstKept(moves: seq<Move>, before: ClassLists, after: ClassLists, order: seq<int>) {
    forall grade :: grade in order ==>
      First(after, grade) == if Labels(before, grade) == [] then NO_SECTION else Relabel(moves, grade, First(before, grade))
  }

  lemma AdoptNothing(g: Grades, s: Tables, teacher: nat, before: ClassLists, after: ClassLists, order: seq<int>)
    requires forall grade :: grade in order ==> First(before, grade) == First(after, grade)
    ensures Adopt(g, s, teacher, before, after, order) == s
  {
    var t := Adopt(g, s, teacher, before, after, order);
    forall m | 0 <= m < MODELS ensures |t[m]| == |s[m]| && forall k :: 0 <= k < |s[m]| ==> t[m][k] == s[m][k] {
      PassAt(g, s, teacher, AdoptMoves(before, after, order), m);
      forall k | 0 <= k < |s[m]| ensures t[m][k] == s[m][k] {
        var r := s[m][k];
        if r.teacher == teacher {
          if r.lesson in g {
            AdoptLanding(g, s, teacher, before, after, order, r.lesson, r.section);
          } else {
            NoMovesOutside(g, s, teacher, AdoptMoves(before, after, order), r.lesson, r.section);
          }
        }
      }
    }
    SameTables(t, s);
  }

  /** No class is called like a holding label. */
  ghost predicate OrdinaryNames(sections: ClassLists) {
    forall grade, name, i: nat :: name in Labels(sections, grade) ==> name != Holding(i)
  }

  ghost predicate OrdinaryMoves(moves: seq<Move>) {
    forall k, i: nat :: 0 <= k < |moves| ==> moves[k].source != Holding(i) && moves[k].target != Holding(i)
  }

  lemma {:induction false} PlanUnreserved(renames: seq<Move>, before: ClassLists, after: ClassLists)
    requires Plan(renames, before, after).Planned? && OrdinaryNames(before) && OrdinaryNames(after)
    ensures OrdinaryMoves(Plan(renames, before, after).moves) && OrdinaryNames(Plan(renames, before, after).rewritten)
  {
    if renames != [] {
      var q, e := renames[..|renames| - 1], renames[|renames| - 1];
      PlanUnreserved(q, before, after);
      var p, next := Plan(q, before, after), Plan(renames, before, after);
      if e.source != e.target {
        forall grade, name, i: nat | name in Labels(next.rewritten, grade) ensures name != Holding(i) {
          if grade == e.grade {
            var k :| 0 <= k < |Labels(next.rewritten, grade)| && Labels(next.rewritten, grade)[k] == name;
            assert Labels(p.rewritten, grade)[k] in Labels(p.rewritten, grade);
          } else {
            assert name in Labels(p.rewritten, grade);
          }
        }
      }
    }
  }

  lemma FirstOrdinary(sections: ClassLists, grade: int, i: nat)
    requires OrdinaryNames(sections)
    ensures First(sections, grade) != Holding(i)
  {
    assert |Holding(i)| >= 5;
    if Labels(sections, grade) != [] {
      assert First(sections, grade) in Labels(sections, grade);
    }
  }

  lemma TwoPassHolds(g: Grades, s: Tables, teacher: nat, moves: seq<Move>, lesson: nat, x: Label)
    requires Unreserved(moves) && lesson in g
    ensures Holds(TwoPass(g, s, teacher, moves), teacher, lesson, x)
      <==> exists name :: Holds(s, teacher, lesson, name) && EndsAt(g, s, teacher, moves, lesson, name) == x
  {
    var t := TwoPass(g, s, teacher, moves);
    if Holds(t, teacher, lesson, x) {
      var m, k :| 0 <= m < MODELS && 0 <= k < |t[m]| && Under(t[m][k], teacher, lesson, x);
      TwoPassSizes(g, s, teacher, moves, m);
      RowEnds(g, s, teacher, moves, m, k);
      assert Holds(s, teacher, lesson, s[m][k].section);
    }
    if name :| Holds(s, teacher, lesson, name) && EndsAt(g, s, teacher, moves, lesson, name) == x {
      var m, k :| 0 <= m < MODELS && 0 <= k < |s[m]| && Under(s[m][k], teacher, lesson, name);
      RowEnds(g, s, teacher, moves, m, k);
      assert Under(t[m][k], teacher, lesson, x);
    }
  }

  /** Where the whole edit leaves the lesson's rows under a label. */
  ghost function EditEnds(g: Grades, s: Tables, teacher: nat, moves: seq<Move>, rewritten: ClassLists, after: ClassLists, order: seq<int>, lesson: nat, name: Label): Label
    requires lesson in g
  {
    var end, prior, next := EndsAt(g, s, teacher, moves, lesson, name), First(rewritten, g[lesson]), First(after, g[lesson]);
    if g[lesson] in order && end == prior && !Holds(TwoPass(g, s, teacher, moves), teacher, lesson, next) then next else end
  }

  lemma EditedRow(g: Grades, s: Tables, teacher: nat, moves: seq<Move>, rewritten: ClassLists, after: ClassLists, order: seq<int>, m: nat, k: nat)
    requires Unreserved(moves) && m < MODELS && k < |s[m]|
    ensures |Edited(g, s, teacher, moves, rewritten, after, order)[m]| == |s[m]|
    ensures Edited(g, s, teacher, moves, rewritten, after, order)[m][k]
         == if s[m][k].teacher == teacher && s[m][k].lesson in g
            then s[m][k].(section := EditEnds(g, s, teacher, moves, rewritten, after, order, s[m][k].lesson, s[m][k].section))
            else s[m][k]
  {
    var mid := TwoPass(g, s, teacher, moves);
    RowEnds(g, s, teacher, moves, m, k);
    PassAt(g, mid, teacher, AdoptMoves(rewritten, after, order), m);
    if s[m][k].teacher == teacher {
      if s[m][k].lesson in g {
        AdoptLanding(g, mid, teacher, rewritten, after, order, s[m][k].lesson, mid[m][k].section);
      } else {
        NoMovesOutside(g, mid, teacher, AdoptMoves(rewritten, after, order), s[m][k].lesson, s[m][k].section);
      }
    }
  }

  /** A class barred by leftovers under its holding label finds its new name held, by those
      leftovers or by a class that stays. */
  lemma BarredTargetHeld(g: Grades, s: Tables, teacher: nat, moves: seq<Move>, lesson: nat, i: nat)
    requires Unreserved(moves) && lesson in g && i < |moves| && moves[i].grade == g[lesson]
    requires Holds(s, teacher, lesson, Holding(i))
    ensures Holds(TwoPass(g, s, teacher, moves), teacher, lesson, moves[i].target)
  {
    TwoPassHolds(g, s, teacher, moves, lesson, moves[i].target);
    WaitingIs(|moves|, i);
    var name := if Stays(g, s, teacher, moves, lesson, moves[i].target) then moves[i].target else Holding(i);
    assert Holds(s, teacher, lesson, name) && EndsAt(g, s, teacher, moves, lesson, name) == moves[i].target;
  }

  /** A renamed class that its move does not carry onto its new name: it ends under a holding
      label, or its new name is held when the adopt step looks. */
  lemma MisplacedEnds(g: Grades, s: Tables, teacher: nat, moves: seq<Move>, lesson: nat, name: Label)
    requires Unreserved(moves) && lesson in g && WaitingAt(|moves|, name) < 0 && Misplaced(g, s, teacher, moves, lesson, name)
    ensures (exists i: nat :: EndsAt(g, s, teacher, moves, lesson, name) == Holding(i))
      || Holds(TwoPass(g, s, teacher, moves), teacher, lesson, Relabel(moves, g[lesson], name))
  {
    var i := LastFrom(moves, g[lesson], name);
    if Holds(s, teacher, lesson, Holding(i)) {
      BarredTargetHeld(g, s, teacher, moves, lesson, i);
    } else {
      assert FreeFrom(s, teacher, moves, lesson, g[lesson], name) == i;
      assert EndsAt(g, s, teacher, moves, lesson, name) == Holding(i);
    }
  }

  lemma NotRepaired(g: Grades, s: Tables, teacher: nat, moves: seq<Move>, rewritten: ClassLists, after: ClassLists, order: seq<int>, lesson: nat, name: Label, target: Label)
    requires lesson in g && EndsAt(g, s, teacher, moves, lesson, name) != target
    requires EndsAt(g, s, teacher, moves, lesson, name) != First(rewritten, g[lesson])
      || First(after, g[lesson]) != target || Holds(TwoPass(g, s, teacher, moves), teacher, lesson, target)
    ensures EditEnds(g, s, teacher, moves, rewritten, after, order, lesson, name) != target
  {
  }

  /** What the renames misplace, the adopt step never puts right. */
  lemma AdoptRepairsNothing(g: Grades, s: Tables, teacher: nat, moves: seq<Move>, rewritten: ClassLists, after: ClassLists, order: seq<int>, lesson: nat, name: Label)
    requires Unreserved(moves) && Changing(moves) && OrdinaryNames(rewritten) && OrdinaryNames(after)
    requires lesson in g && Misplaced(g, s, teacher, moves, lesson, name)
    ensures EditEnds(g, s, teacher, moves, rewritten, after, order, lesson, name) != Relabel(moves, g[lesson], name)
  {
    var end, target := EndsAt(g, s, teacher, moves, lesson, name), Relabel(moves, g[lesson], name);
    EndsRelabelled(g, s, teacher, moves, lesson, name);
    var left := WaitingAt(|moves|, name);
    if left >= 0 {
      LeftoverKeepsName(moves, g[lesson], left);
      FirstOrdinary(after, g[lesson], left);
    } else {
      MisplacedEnds(g, s, teacher, moves, lesson, name);
      if i: nat :| end == Holding(i) {
        FirstOrdinary(rewritten, g[lesson], i);
      }
    }
    NotRepaired(g, s, teacher, moves, rewritten, after, order, lesson, name, target);
  }

  lemma LeftoverKeepsName(moves: seq<Move>, grade: int, i: nat)
    requires Unreserved(moves) && i < |moves|
    ensures Relabel(moves, grade, Holding(i)) == Holding(i)
  {
  }

  /** The lesson has history that ends under the label. */
  ghost predicate HeldAs(g: Grades, s: Tables, teacher: nat, moves: seq<Move>, lesson: nat, x: Label)
    requires lesson in g
  {
    exists name :: Holds(s, teacher, lesson, name) && Relabel(moves, g[lesson], name) == x
  }

  /** Wherever a grade's first class, in the rewritten picture, is not the one the edit ends
      with: no lesson has history for the former alone. */
  ghost predicate AdoptRests(g: Grades, s: Tables, teacher: nat, moves: seq<Move>, rewritten: ClassLists, after: ClassLists, order: seq<int>) {
    forall lesson ::
      lesson in g && g[lesson] in order && First(rewritten, g[lesson]) != First(after, g[lesson])
      && HeldAs(g, s, teacher, moves, lesson, First(rewritten, g[lesson]))
      ==> HeldAs(g, s, teacher, moves, lesson, First(after, g[lesson]))
  }

  ghost predicate EveryLabelEnds(g: Grades, s: Tables, teacher: nat, moves: seq<Move>, rewritten: ClassLists, after: ClassLists, order: seq<int>) {
    forall lesson, name :: lesson in g && Holds(s, teacher, lesson, name) ==>
      EditEnds(g, s, teacher, moves, rewritten, after, order, lesson, name) == Relabel(moves, g[lesson], name)
  }

  lemma EditedByLabel(g: Grades, s: Tables, teacher: nat, moves: seq<Move>, rewritten: ClassLists, after: ClassLists, order: seq<int>)
    requires Unreserved(moves)
    ensures IsRelabelled(g, s, teacher, moves, Edited(g, s, teacher, moves, rewritten, after, order))
      <==> EveryLabelEnds(g, s, teacher, moves, rewritten, after, order)
  {
    var t := Edited(g, s, teacher, moves, rewritten, after, order);
    if IsRelabelled(g, s, teacher, moves, t) {
      forall lesson, name | lesson in g && Holds(s, teacher, lesson, name)
        ensures EditEnds(g, s, teacher, moves, rewritten, after, order, lesson, name) == Relabel(moves, g[lesson], name)
      {
        var m, k :| 0 <= m < MODELS && 0 <= k < |s[m]| && Under(s[m][k], teacher, lesson, name);
        EditedRow(g, s, teacher, moves, rewritten, after, order, m, k);
      }
    }
    if EveryLabelEnds(g, s, teacher, moves, rewritten, after, order) {
      forall m | 0 <= m < MODELS
        ensures |t[m]| == |s[m]| && forall k :: 0 <= k < |s[m]| ==> t[m][k] == RelabelRow(g, teacher, moves, s[m][k])
      {
        TwoPassSizes(g, s, teacher, moves, m);
        PassAt(g, TwoPass(g, s, teacher, moves), teacher, AdoptMoves(rewritten, after, order), m);
        forall k | 0 <= k < |s[m]| ensures t[m][k] == RelabelRow(g, teacher, moves, s[m][k]) {
          EditedRow(g, s, teacher, moves, rewritten, after, order, m, k);
          RowEnds(g, s, teacher, moves, m, k);
        }
      }
    }
  }

  /** After a pair of passes that misplaced nothing, a label is held exactly as relabelled. */
  lemma HeldRelabelled(g: Grades, s: Tables, teacher: nat, moves: seq<Move>, lesson: nat, x: Label)
    requires Unreserved(moves) && Changing(moves) && lesson in g && NoneMisplaced(g, s, teacher, moves)
    ensures Holds(TwoPass(g, s, teacher, moves), teacher, lesson, x) <==> HeldAs(g, s, teacher, moves, lesson, x)
  {
    TwoPassHolds(g, s, teacher, moves, lesson, x);
    forall name | Holds(s, teacher, lesson, name) ensures EndsAt(g, s, teacher, moves, lesson, name) == Relabel(moves, g[lesson], name) {
      EndsRelabelled(g, s, teacher, moves, lesson, name);
    }
  }

  lemma LabelsEndExactly(g: Grades, s: Tables, teacher: nat, moves: seq<Move>, rewritten: ClassLists, after: ClassLists, order: seq<int>)
    requires Unreserved(moves) && Changing(moves) && OrdinaryNames(rewritten) && OrdinaryNames(after)
    ensures EveryLabelEnds(g, s, teacher, moves, rewritten, after, order)
      <==> NoneMisplaced(g, s, teacher, moves) && AdoptRests(g, s, teacher, moves, rewritten, after, order)
  {
    if EveryLabelEnds(g, s, teacher, moves, rewritten, after, order) {
      forall lesson, name | lesson in g && Holds(s, teacher, lesson, name) ensures !Misplaced(g, s, teacher, moves, lesson, name) {
        if Misplaced(g, s, teacher, moves, lesson, name) {
          AdoptRepairsNothing(g, s, teacher, moves, rewritten, after, order, lesson, name);
        }
      }
    }
    if NoneMisplaced(g, s, teacher, moves) {
      forall lesson, name | lesson in g && Holds(s, teacher, lesson, name)
        ensures EndsAt(g, s, teacher, moves, lesson, name) == Relabel(moves, g[lesson], name)
      {
        EndsRelabelled(g, s, teacher, moves, lesson, name);
      }
      forall lesson | lesson in g
        ensures Holds(TwoPass(g, s, teacher, moves), teacher, lesson, First(after, g[lesson]))
          <==> HeldAs(g, s, teacher, moves, lesson, First(after, g[lesson]))
      {
        HeldRelabelled(g, s, teacher, moves, lesson, First(after, g[lesson]));
      }
    }
  }

  /** Every accepted edit, renames and adopt step together: it carries each class's history
      straight to the class's new name exactly when the renames misplace nothing and the adopt
      step finds nothing to move. */
  lemma EditRelabels(g: Grades, s: Tables, teacher: nat, renames: seq<Move>, before: ClassLists, after: ClassLists, order: seq<int>)
    requires Plan(renames, before, after).Planned? && OrdinaryNames(before) && OrdinaryNames(after)
    ensures var p := Plan(renames, before, after);
      IsRelabelled(g, s, teacher, p.moves, Edited(g, s, teacher, p.moves, p.rewritten, after, order))
      <==> NoneMisplaced(g, s, teacher, p.moves) && AdoptRests(g, s, teacher, p.moves, p.rewritten, after, order)
  {
    var p := Plan(renames, before, after);
    PlanRewrites(renames, before, after);
    PlanUnreserved(renames, before, after);
    EditedByLabel(g, s, teacher, p.moves, p.rewritten, after, order);
    LabelsEndExactly(g, s, teacher, p.moves, p.rewritten, after, order);
  }

  /** Without chains, an edit that keeps each grade's first class first gives the adopt step
      nothing to do. */
  lemma PlainEditRests(g: Grades, s: Tables, teacher: nat, renames: seq<Move>, before: ClassLists, after: ClassLists, order: seq<int>)
    requires Plan(renames, before, after).Planned?
    requires var moves := Plan(renames, before, after).moves;
      DistinctSources(moves) && NoChain(moves) && FirstKept(moves, before, after, order)
    ensures var p := Plan(renames, before, after);
      && AdoptRests(g, s, teacher, p.moves, p.rewritten, after, order)
      && Edited(g, s, teacher, p.moves, p.rewritten, after, order) == TwoPass(g, s, teacher, p.moves)
  {
    var p := Plan(renames, before, after);
    PlanRewrites(renames, before, after);
    forall grade | grade in order ensures First(p.rewritten, grade) == First(after, grade) {
      if Labels(before, grade) != [] {
        FoldWithoutChain(p.moves, grade, before[grade][0]);
      }
    }
    AdoptNothing(g, TwoPass(g, s, teacher, p.moves), teacher, p.rewritten, after, order);
  }

  /** An edit that renames nothing leaves every row alone exactly when no lesson of a grade
      whose first class changed has history under the old first class and none under the new. */
  lemma NoRenameExactly(g: Grades, s: Tables, teacher: nat, before: ClassLists, after: ClassLists, order: seq<int>)
    requires OrdinaryNames(before) && OrdinaryNames(after)
    ensures Edited(g, s, teacher, [], before, after, order) == s <==>
      forall lesson ::
        lesson in g && g[lesson] in order && First(before, g[lesson]) != First(after, g[lesson])
        && Holds(s, teacher, lesson, First(before, g[lesson]))
        ==> Holds(s, teacher, lesson, First(after, g[lesson]))
  {
    var t := Edited(g, s, teacher, [], before, after, order);
    EditRelabels(g, s, teacher, [], before, after, order);
    assert NoneMisplaced(g, s, teacher, []);
    assert forall lesson, x :: lesson in g ==> (HeldAs(g, s, teacher, [], lesson, x) <==> Holds(s, teacher, lesson, x)) by {
      assert forall grade, name :: Relabel([], grade, name) == name;
    }
    assert forall r :: RelabelRow(g, teacher, [], r) == r;
    if IsRelabelled(g, s, teacher, [], t) {
      SameTables(t, s);
    }
  }

  /** Whatever is accepted, an edit with distinct targets keeps every row and every room,
      and with them both uniqueness rules. */
  lemma EditKeepsRooms(g: Grades, s: Tables, teacher: nat, moves: seq<Move>, rewritten: ClassLists, after: ClassLists, order: seq<int>)
    requires DistinctTargets(moves)
    requires UniqueProgress(s[PROGRESS]) && OnePending(s[REQUESTS])
    ensures var t := Edited(g, s, teacher, moves, rewritten, after, order);
      && OnlyLabels(s, t, teacher) && SameRooms(s, t)
      && UniqueProgress(t[PROGRESS]) && OnePending(t[REQUESTS])
  {
    var mid := TwoPass(g, s, teacher, moves);
    var t := Edited(g, s, teacher, moves, rewritten, after, order);
    RoomsKept(g, s, teacher, moves);
    AdoptKeepsRooms(g, mid, teacher, rewritten, after, order);
    RoomsCompose(s, mid, t, teacher);
    RoomsKeepUnique(s, t, teacher);
  }

  // ----- edits that go wrong -----

  const A: Label := "A"
  const B: Label := "B"
  const C: Label := "C"
  const D: Label := "D"

  ghost function OneChat(name: Label): Tables {
    [[], [Row(0, 1, 2, name, false)], []]
  }

  lemma OneChatHolds(name: Label, other: Label)
    ensures Holds(OneChat(name), 1, 2, other) <==> other == name
  {
    assert OneChat(name)[CHAT] == [Row(0, 1, 2, name, false)];
    if other == name {
      assert Under(OneChat(name)[CHAT][0], 1, 2, other);
    }
  }

  lemma OneChatEdited(g: Grades, moves: seq<Move>, rewritten: ClassLists, after: ClassLists, order: seq<int>, name: Label)
    requires Unreserved(moves) && 2 in g
    ensures Edited(g, OneChat(name), 1, moves, rewritten, after, order)
      == OneChat(EditEnds(g, OneChat(name), 1, moves, rewritten, after, order, 2, name))
  {
    var s, t := OneChat(name), Edited(g, OneChat(name), 1, moves, rewritten, after, order);
    assert s[CHAT] == [Row(0, 1, 2, name, false)];
    EditedRow(g, s, 1, moves, rewritten, after, order, CHAT, 0);
    forall m | 0 <= m < MODELS ensures |t[m]| == |s[m]| {
      TwoPassSizes(g, s, 1, moves, m);
      PassAt(g, TwoPass(g, s, 1, moves), 1, AdoptMoves(rewritten, after, order), m);
    }
    SameTables(t, OneChat(EditEnds(g, s, 1, moves, rewritten, after, order, 2, name)));
  }

  lemma ShortLabelIsOrdinary(name: Label, i: nat)
    requires |name| < 5
    ensures name != Holding(i)
  {
    assert |Holding(i)| >= 5;
  }

  lemma OrdinaryShort(sections: ClassLists)
    requires forall grade, name :: name in Labels(sections, grade) ==> |name| < 5
    ensures OrdinaryNames(sections)
  {
    forall grade, name, i: nat | name in Labels(sections, grade) ensures name != Holding(i) {
      ShortLabelIsOrdinary(name, i);
    }
  }

  function Swapped(names: seq<Label>, x: Label, y: Label): seq<Label> {
    seq(|names|, k requires 0 <= k < |names| => if names[k] == x then y else if names[k] == y then x else names[k])
  }

  lemma SwapPlanned(before: ClassLists, after: ClassLists, grade: int, x: Label, y: Label)
    requires x != y && x in Labels(before, grade) && y in Labels(before, grade)
    requires after == before[grade := Swapped(before[grade], x, y)]
    ensures Plan([Move(grade, x, y), Move(grade, y, x)], before, after)
      == Planned([Move(grade, x, y), Move(grade, y, x)], before[grade := Replace(Replace(before[grade], x, y), y, x)])
  {
    var renames, names := [Move(grade, x, y), Move(grade, y, x)], before[grade];
    var i :| 0 <= i < |names| && names[i] == x;
    var j :| 0 <= j < |names| && names[j] == y;
    assert Swapped(names, x, y)[i] == y && Swapped(names, x, y)[j] == x;
    assert Replace(names, x, y)[i] == y;
    assert renames[..1] == [Move(grade, x, y)] && renames[..1][..0] == [];
    assert Plan(renames[..1], before, after) == Planned([Move(grade, x, y)], before[grade := Replace(names, x, y)]) by {
      assert Plan(renames[..1][..0], before, after) == Planned([], before);
    }
  }

  lemma SwapRelabels(grade: int, x: Label, y: Label, name: Label)
    requires x != y
    ensures var renames := [Move(grade, x, y), Move(grade, y, x)];
      && (LastFrom(renames, grade, name) >= 0 <==> name == x || name == y)
      && Relabel(renames, grade, name) == if name == x then y else if name == y then x else name
  {
    var renames := [Move(grade, x, y), Move(grade, y, x)];
    assert renames[0] == Move(grade, x, y) && renames[1] == Move(grade, y, x);
  }

  /** Swapping bars nobody: each class's new name is held by a class that moves too. */
  lemma SwapUnblocked(g: Grades, s: Tables, teacher: nat, grade: int, x: Label, y: Label)
    requires x != y
    ensures Unblocked(g, s, teacher, [Move(grade, x, y), Move(grade, y, x)])
  {
    var renames := [Move(grade, x, y), Move(grade, y, x)];
    forall lesson, name | lesson in g && Holds(s, teacher, lesson, name) ensures !Blocked(g, s, teacher, renames, lesson, name) {
      if g[lesson] == grade {
        SwapRelabels(grade, x, y, name);
        SwapRelabels(grade, x, y, Relabel(renames, grade, name));
      }
    }
  }

  lemma SwapHeldAs(g: Grades, s: Tables, teacher: nat, grade: int, x: Label, y: Label, lesson: nat)
    requires x != y && InGrade(g, lesson, grade)
    ensures var renames := [Move(grade, x, y), Move(grade, y, x)];
      && (HeldAs(g, s, teacher, renames, lesson, x) <==> Holds(s, teacher, lesson, y))
      && (HeldAs(g, s, teacher, renames, lesson, y) <==> Holds(s, teacher, lesson, x))
  {
    forall name ensures Relabel([Move(grade, x, y), Move(grade, y, x)], grade, name) == if name == x then y else if name == y then x else name {
      SwapRelabels(grade, x, y, name);
    }
  }

  lemma SwapFirsts(before: ClassLists, after: ClassLists, rewritten: ClassLists, grade: int, x: Label, y: Label)
    requires x != y && x in Labels(before, grade) && y in Labels(before, grade)
    requires after == before[grade := Swapped(before[grade], x, y)]
    requires rewritten == before[grade := Replace(Replace(before[grade], x, y), y, x)]
    ensures First(before, grade) == x ==> First(rewritten, grade) == x && First(after, grade) == y
    ensures First(before, grade) != x ==> First(rewritten, grade) == First(after, grade)
    ensures forall other :: other != grade ==> First(rewritten, other) == First(after, other)
  {
    var names := before[grade];
    assert Replace(names, x, y)[0] == if names[0] == x then y else names[0];
  }

  /** What the adopt step of a swap would move. */
  lemma SwapRests(g: Grades, s: Tables, teacher: nat, before: ClassLists, after: ClassLists, rewritten: ClassLists, order: seq<int>, grade: int, x: Label, y: Label)
    requires x != y && x in Labels(before, grade) && y in Labels(before, grade)
    requires after == before[grade := Swapped(before[grade], x, y)]
    requires rewritten == before[grade := Replace(Replace(before[grade], x, y), y, x)]
    ensures AdoptRests(g, s, teacher, [Move(grade, x, y), Move(grade, y, x)], rewritten, after, order)
      <==> SwapSafe(g, s, teacher, before, order, grade, x, y)
  {
    SwapFirsts(before, after, rewritten, grade, x, y);
    forall lesson | InGrade(g, lesson, grade)
      ensures HeldAs(g, s, teacher, [Move(grade, x, y), Move(grade, y, x)], lesson, x) <==> Holds(s, teacher, lesson, y)
      ensures HeldAs(g, s, teacher, [Move(grade, x, y), Move(grade, y, x)], lesson, y) <==> Holds(s, teacher, lesson, x)
    {
      SwapHeldAs(g, s, teacher, grade, x, y, lesson);
    }
  }

  /** The class named first in the swap is not the grade's first class, or no lesson has history
      for the other one alone. */
  ghost predicate SwapSafe(g: Grades, s: Tables, teacher: nat, before: ClassLists, order: seq<int>, grade: int, x: Label, y: Label) {
    grade in order && First(before, grade) == x ==>
      forall lesson :: InGrade(g, lesson, grade) && Holds(s, teacher, lesson, y) ==> Holds(s, teacher, lesson, x)
  }

  /** Swapping two classes of a grade, wherever they stand among its classes, carries each to
      its new name exactly when that is safe and nothing left over is in the way. */
  lemma SwapExactly(g: Grades, s: Tables, teacher: nat, before: ClassLists, after: ClassLists, order: seq<int>, grade: int, x: Label, y: Label)
    requires x != y && x in Labels(before, grade) && y in Labels(before, grade) && OrdinaryNames(before)
    requires after == before[grade := Swapped(before[grade], x, y)]
    ensures var p := Plan([Move(grade, x, y), Move(grade, y, x)], before, after);
      && p.Planned?
      && (IsRelabelled(g, s, teacher, p.moves, Edited(g, s, teacher, p.moves, p.rewritten, after, order))
          <==> NoneMisplaced(g, s, teacher, p.moves) && SwapSafe(g, s, teacher, before, order, grade, x, y))
      && (HoldingFree(s, teacher, p.moves) ==> NoneMisplaced(g, s, teacher, p.moves))
  {
    var renames := [Move(grade, x, y), Move(grade, y, x)];
    SwapPlanned(before, after, grade, x, y);
    SwapOrdinary(before, after, grade, x, y);
    EditRelabels(g, s, teacher, renames, before, after, order);
    PlanUnreserved(renames, before, after);
    SwapUnblocked(g, s, teacher, grade, x, y);
    TwoPassesRelabel(g, s, teacher, renames);
    SwapRests(g, s, teacher, before, after, Plan(renames, before, after).rewritten, order, grade, x, y);
  }

  lemma SwapOrdinary(before: ClassLists, after: ClassLists, grade: int, x: Label, y: Label)
    requires x in Labels(before, grade) && y in Labels(before, grade) && OrdinaryNames(before)
    requires after == before[grade := Swapped(before[grade], x, y)]
    ensures OrdinaryNames(after)
  {
    forall other, name, i: nat | name in Labels(after, other) ensures name != Holding(i) {
      if other == grade {
        assert name in before[grade];
      } else {
        assert name in Labels(before, other);
      }
    }
  }

  /** Swapping a grade's only two classes is accepted, but the picture folds to [A, A], so the
      adopt step puts a message said in the old B back under B, now the other class. */
  lemma SwapMisfiles()
    ensures var renames := [Move(6, A, B), Move(6, B, A)];
            var before, after: ClassLists := map[6 := [A, B]], map[6 := [B, A]];
            && Plan(renames, before, after) == Planned(renames, map[6 := [A, A]])
            && Relabel(renames, 6, B) == A
            && Edited(map[2 := 6], OneChat(B), 1, renames, map[6 := [A, A]], after, [6]) == OneChat(B)
  {
    var renames := [Move(6, A, B), Move(6, B, A)];
    var before, after: ClassLists := map[6 := [A, B]], map[6 := [B, A]];
    assert Swapped(before[6], A, B) == [B, A] && Replace(Replace(before[6], A, B), B, A) == [A, A];
    SwapPlanned(before, after, 6, A, B);
    SwapRelabels(6, A, B, B);
    SwapEnds(renames);
    OneChatEdited(map[2 := 6], renames, map[6 := [A, A]], after, [6], B);
  }

  lemma SwapEnds(renames: seq<Move>)
    requires renames == [Move(6, A, B), Move(6, B, A)]
    ensures Unreserved(renames)
    ensures EndsAt(map[2 := 6], OneChat(B), 1, renames, 2, B) == A
    ensures !Holds(TwoPass(map[2 := 6], OneChat(B), 1, renames), 1, 2, B)
  {
    forall j: nat ensures A != Holding(j) && B != Holding(j) {
      ShortLabelIsOrdinary(A, j);
      ShortLabelIsOrdinary(B, j);
    }
    forall name ensures Holds(OneChat(B), 1, 2, name) <==> name == B { OneChatHolds(B, name); }
    assert renames[1] == Move(6, B, A);
    assert FreeFrom(OneChat(B), 1, renames, 2, 6, B) == 1;
    TwoPassHolds(map[2 := 6], OneChat(B), 1, renames, 2, B);
  }

  /** Dropping a grade's first class, with nothing renamed, files its messages under the class
      that is first now. */
  lemma DroppedFirstIsRefiled()
    ensures var before, after: ClassLists := map[6 := [A, B]], map[6 := [B]];
            && Plan([], before, after) == Planned([], before)
            && Edited(map[2 := 6], OneChat(A), 1, [], before, after, [6]) == OneChat(B)
  {
    var before, after: ClassLists := map[6 := [A, B]], map[6 := [B]];
    var g: Grades, s := map[2 := 6], OneChat(A);
    forall name ensures Holds(s, 1, 2, name) <==> name == A { OneChatHolds(A, name); }
    assert EndsAt(g, s, 1, [], 2, A) == A;
    TwoPassHolds(g, s, 1, [], 2, B);
    OneChatEdited(g, [], before, after, [6], A);
  }

  /** Renaming two classes to one label is accepted too, and then their messages about a
      lesson end up in one thread. */
  lemma TwoToOneMerges()
    ensures var renames := [Move(6, A, C), Move(6, B, C)];
            && Plan(renames, map[6 := [A, B]], map[6 := [C]]) == Planned(renames, map[6 := [C, C]])
            && !DistinctTargets(renames)
            && OnlyLabels(TwoRooms(1, 2, A, B), TwoPass(map[2 := 6], TwoRooms(1, 2, A, B), 1, renames), 1)
            && !SameRooms(TwoRooms(1, 2, A, B), TwoPass(map[2 := 6], TwoRooms(1, 2, A, B), 1, renames))
  {
    var renames := [Move(6, A, C), Move(6, B, C)];
    TwoToOnePlanned();
    OrdinaryShort(map[6 := [A, B]]);
    OrdinaryShort(map[6 := [C]]);
    PlanUnreserved(renames, map[6 := [A, B]], map[6 := [C]]);
    MergeWitness(map[2 := 6], 1, renames, 2, 0, 1);
  }

  lemma TwoToOnePlanned()
    ensures Plan([Move(6, A, C), Move(6, B, C)], map[6 := [A, B]], map[6 := [C]]) == Planned([Move(6, A, C), Move(6, B, C)], map[6 := [C, C]])
  {
    var renames := [Move(6, A, C), Move(6, B, C)];
    var before, after: ClassLists := map[6 := [A, B]], map[6 := [C]];
    OnePlanned(before, after, Move(6, A, C));
    assert Replace([A, B], A, C) == [C, B] && Replace([C, B], B, C) == [C, C];
    assert renames[..1] == [Move(6, A, C)];
  }

  lemma OnePlanned(before: ClassLists, after: ClassLists, e: Move)
    requires e.source != e.target && e.target in Labels(after, e.grade) && e.source in Labels(before, e.grade)
    ensures Plan([e], before, after) == Planned([e], before[e.grade := Replace(before[e.grade], e.source, e.target)])
  {
    assert Plan([e][..0], before, after) == Planned([], before);
  }

  lemma TwoRoomsEdited(g: Grades, moves: seq<Move>, rewritten: ClassLists, after: ClassLists, order: seq<int>, x: Label, y: Label)
    requires Unreserved(moves) && 2 in g
    ensures var s := TwoRooms(1, 2, x, y);
      Edited(g, s, 1, moves, rewritten, after, order)
        == TwoRooms(1, 2, EditEnds(g, s, 1, moves, rewritten, after, order, 2, x), EditEnds(g, s, 1, moves, rewritten, after, order, 2, y))
  {
    var s, t := TwoRooms(1, 2, x, y), Edited(g, TwoRooms(1, 2, x, y), 1, moves, rewritten, after, order);
    assert s[CHAT] == [Row(0, 1, 2, x, false), Row(1, 1, 2, y, false)];
    EditedRow(g, s, 1, moves, rewritten, after, order, CHAT, 0);
    EditedRow(g, s, 1, moves, rewritten, after, order, CHAT, 1);
    forall m | 0 <= m < MODELS ensures |t[m]| == |s[m]| {
      TwoPassSizes(g, s, 1, moves, m);
      PassAt(g, TwoPass(g, s, 1, moves), 1, AdoptMoves(rewritten, after, order), m);
    }
    SameTables(t, TwoRooms(1, 2, EditEnds(g, s, 1, moves, rewritten, after, order, 2, x), EditEnds(g, s, 1, moves, rewritten, after, order, 2, y)));
  }

  /** One rename, on a lesson with two messages: one in the class that is renamed, or left over,
      and one in a class that stays. */
  lemma OneRenameEnds(e: Move, x: Label, y: Label)
    requires e.grade == 6 && e.source != e.target && |e.source| < 5 && |e.target| < 5
    requires x == e.source || x == Holding(0)
    requires y != e.source && y != Holding(0) && y != x
    ensures var s := TwoRooms(1, 2, x, y);
      && EndsAt(map[2 := 6], s, 1, [e], 2, x) == (if y == e.target then Holding(0) else e.target)
      && EndsAt(map[2 := 6], s, 1, [e], 2, y) == y
  {
    var s := TwoRooms(1, 2, x, y);
    ShortLabelIsOrdinary(e.source, 0);
    forall name ensures Holds(s, 1, 2, name) <==> name == x || name == y { TwoRoomsHold(1, 2, x, y, 2, name); }
    OneMoveFree(s, 1, e, 2, x);
    OneMoveFree(s, 1, e, 2, y);
    OneMoveFree(s, 1, e, 2, e.target);
    ShortLabelIsOrdinary(e.target, 0);
    assert WaitingAt(1, x) == if x == Holding(0) then 0 else -1;
    assert WaitingAt(1, y) == -1;
  }

  lemma OneMoveFree(s: Tables, teacher: nat, e: Move, lesson: nat, name: Label)
    ensures FreeFrom(s, teacher, [e], lesson, e.grade, name) == if e.source == name && !Holds(s, teacher, lesson, Holding(0)) then 0 else -1
  {
    assert [e][0] == e;
  }

  /** The same as a whole edit, in a grade whose first class is not refiled. */
  lemma OneRename(e: Move, x: Label, y: Label, rewritten: ClassLists, after: ClassLists)
    requires e.grade == 6 && e.source != e.target && |e.source| < 5 && |e.target| < 5
    requires x == e.source || x == Holding(0)
    requires y != e.source && y != Holding(0) && y != x
    requires First(rewritten, 6) == First(after, 6)
    ensures Edited(map[2 := 6], TwoRooms(1, 2, x, y), 1, [e], rewritten, after, [6])
      == TwoRooms(1, 2, if y == e.target then Holding(0) else e.target, y)
  {
    OneRenameEnds(e, x, y);
    ShortLabelIsOrdinary(e.source, 0);
    ShortLabelIsOrdinary(e.target, 0);
    TwoRoomsEdited(map[2 := 6], [e], rewritten, after, [6], x, y);
  }

  /** Two edits of classes A and C, with messages of a class B that was dropped before: renaming
      A to B leaves A's message behind, and then renaming C to D files it under D. */
  lemma LeftoversAreAdopted()
    ensures var first, second: ClassLists := map[6 := [A, C]], map[6 := [B, C]];
            var third: ClassLists := map[6 := [B, D]];
            var left := Edited(map[2 := 6], TwoRooms(1, 2, A, B), 1, [Move(6, A, B)], second, second, [6]);
            && Plan([Move(6, A, B)], first, second) == Planned([Move(6, A, B)], second)
            && Plan([Move(6, C, D)], second, third) == Planned([Move(6, C, D)], third)
            && left == TwoRooms(1, 2, Holding(0), B)
            && Edited(map[2 := 6], left, 1, [Move(6, C, D)], third, third, [6]) == TwoRooms(1, 2, D, B)
  {
    var first, second: ClassLists := map[6 := [A, C]], map[6 := [B, C]];
    var third: ClassLists := map[6 := [B, D]];
    assert Replace([A, C], A, B) == [B, C] && Replace([B, C], C, D) == [B, D];
    OnePlanned(first, second, Move(6, A, B));
    OnePlanned(second, third, Move(6, C, D));
    ShortLabelIsOrdinary(B, 0);
    OneRename(Move(6, A, B), A, B, second, second);
    OneRename(Move(6, C, D), Holding(0), B, third, third);
  }
}
