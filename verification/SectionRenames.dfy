/** Renaming classes: the plan an edit yields, the two passes that carry it out, and the
    picture of the old classes rewritten under the new names. */
module SectionRenames {
  import opened SectionTables
  import opened HoldingLabels

  type ClassLists = map<int, seq<Label>>

  datatype EditError = TargetMissing(e: Move) | SourceMissing(e: Move) | DuplicateProgress

  datatype Planning = Planned(moves: seq<Move>, rewritten: ClassLists) | Rejected(error: EditError)

  function Labels(sections: ClassLists, grade: int): seq<Label> {
    if grade in sections then sections[grade] else []
  }

  function Replace(names: seq<Label>, source: Label, target: Label): seq<Label> {
    seq(|names|, k requires 0 <= k < |names| => if names[k] == source then target else names[k])
  }

  /** Each rename must end on a label the edit kept, and must start from a label of the
      picture as rewritten so far. */
  function Plan(renames: seq<Move>, before: ClassLists, after: ClassLists): Planning {
    if renames == [] then Planned([], before)
    else
      var e := renames[|renames| - 1];
      match Plan(renames[..|renames| - 1], before, after)
      case Rejected(error) => Rejected(error)
      case Planned(moves, rewritten) =>
        if e.source == e.target then Planned(moves, rewritten)
        else if e.target !in Labels(after, e.grade) then Rejected(TargetMissing(e))
        else if e.source !in Labels(rewritten, e.grade) then Rejected(SourceMissing(e))
        else Planned(moves + [e], rewritten[e.grade := Replace(rewritten[e.grade], e.source, e.target)])
  }

  function Stage(moves: seq<Move>): seq<Move> {
    seq(|moves|, i requires 0 <= i < |moves| => Move(moves[i].grade, moves[i].source, Holding(i)))
  }

  function Land(moves: seq<Move>): seq<Move> {
    seq(|moves|, i requires 0 <= i < |moves| => Move(moves[i].grade, Holding(i), moves[i].target))
  }

  /** Every class to its holding label, then every holding label to its final one. */
  ghost function TwoPass(g: Grades, s: Tables, teacher: nat, moves: seq<Move>): Tables {
    var staged := Pass(g, s, teacher, Stage(moves));
    Pass(g, staged, teacher, Land(moves))
  }

  // ----- the simultaneous relabelling it stands for -----

  /** The last move from a label of a grade, or -1. */
  function LastFrom(moves: seq<Move>, grade: int, name: Label): (i: int)
    ensures -1 <= i < |moves|
    ensures i >= 0 ==> moves[i].grade == grade && moves[i].source == name
    ensures forall j :: i < j < |moves| ==> !(moves[j].grade == grade && moves[j].source == name)
  {
    if moves == [] then -1
    else if moves[|moves| - 1].grade == grade && moves[|moves| - 1].source == name then |moves| - 1
    else LastFrom(moves[..|moves| - 1], grade, name)
  }

  function Relabel(moves: seq<Move>, grade: int, name: Label): Label {
    var i := LastFrom(moves, grade, name);
    if i >= 0 then moves[i].target else name
  }

  function RelabelRow(g: Grades, teacher: nat, moves: seq<Move>, r: Row): Row {
    if r.teacher == teacher && r.lesson in g
    then r.(section := Relabel(moves, g[r.lesson], r.section))
    else r
  }

  /** Every row carried straight from its class's old name to its new one. */
  ghost predicate IsRelabelled(g: Grades, s: Tables, teacher: nat, moves: seq<Move>, t: Tables) {
    forall m :: 0 <= m < MODELS ==>
      && |t[m]| == |s[m]|
      && forall k :: 0 <= k < |s[m]| ==> t[m][k] == RelabelRow(g, teacher, moves, s[m][k])
  }

  predicate Changing(moves: seq<Move>) {
    forall i :: 0 <= i < |moves| ==> moves[i].source != moves[i].target
  }

  /** No class is called like a holding label of this edit. */
  ghost predicate Unreserved(moves: seq<Move>) {
    forall i, j :: 0 <= i < |moves| && 0 <= j < |moves| ==> moves[i].source != Holding(j) && moves[i].target != Holding(j)
  }

  /** No history is waiting under a holding label of this edit. */
  ghost predicate HoldingFree(s: Tables, teacher: nat, moves: seq<Move>) {
    forall lesson, i :: 0 <= i < |moves| ==> !Holds(s, teacher, lesson, Holding(i))
  }

  /** The last move from a label of a grade whose holding label nothing waits under for the
      lesson, or -1: the one move that can carry the lesson's rows off. */
  ghost function FreeFrom(s: Tables, teacher: nat, moves: seq<Move>, lesson: nat, grade: int, name: Label): (i: int)
    ensures -1 <= i < |moves|
    ensures i >= 0 ==> moves[i].grade == grade && moves[i].source == name && !Holds(s, teacher, lesson, Holding(i))
    ensures forall j :: i < j < |moves| && moves[j].grade == grade && moves[j].source == name ==> Holds(s, teacher, lesson, Holding(j))
  {
    if moves == [] then -1
    else
      var last := |moves| - 1;
      if moves[last].grade == grade && moves[last].source == name && !Holds(s, teacher, lesson, Holding(last)) then last
      else FreeFrom(s, teacher, moves[..last], lesson, grade, name)
  }

  /** The lesson is held under the label by a class no move can carry off. */
  ghost predicate Stays(g: Grades, s: Tables, teacher: nat, moves: seq<Move>, lesson: nat, name: Label)
    requires lesson in g
  {
    Holds(s, teacher, lesson, name) && FreeFrom(s, teacher, moves, lesson, g[lesson], name) < 0
  }

  /** Which of the first `n` holding labels this is, or -1. */
  function WaitingAt(n: nat, name: Label): (i: int)
    ensures -1 <= i < n
    ensures i >= 0 ==> name == Holding(i)
    ensures i < 0 ==> forall j :: 0 <= j < n ==> name != Holding(j)
  {
    if n == 0 then -1 else if Holding(n - 1) == name then n - 1 else WaitingAt(n - 1, name)
  }

  /** Where the lesson's rows under a label end: on the target of the move that carries them,
      or of the move whose holding label they were left under, unless a class that stays is
      there already; then under that holding label. */
  ghost function EndsAt(g: Grades, s: Tables, teacher: nat, moves: seq<Move>, lesson: nat, name: Label): Label
    requires lesson in g
  {
    var left := WaitingAt(|moves|, name);
    var i := if left >= 0 then left else FreeFrom(s, teacher, moves, lesson, g[lesson], name);
    if i < 0 || moves[i].grade != g[lesson] then name
    else if Stays(g, s, teacher, moves, lesson, moves[i].target) then Holding(i)
    else moves[i].target
  }

  /** For one lesson and one label it is held under: an earlier edit's leftovers that a move of
      this one sweeps up, or a renamed class whose way is barred: by leftovers under its holding
      label, or by a class that stays under its new name. */
  ghost predicate Misplaced(g: Grades, s: Tables, teacher: nat, moves: seq<Move>, lesson: nat, name: Label)
    requires lesson in g
  {
    var left := WaitingAt(|moves|, name);
    if left >= 0 then moves[left].grade == g[lesson] && !Stays(g, s, teacher, moves, lesson, moves[left].target)
    else
      var i := FreeFrom(s, teacher, moves, lesson, g[lesson], name);
      && LastFrom(moves, g[lesson], name) >= 0
      && (i < 0 || moves[i].target != Relabel(moves, g[lesson], name)
          || Stays(g, s, teacher, moves, lesson, Relabel(moves, g[lesson], name)))
  }

  ghost predicate NoneMisplaced(g: Grades, s: Tables, teacher: nat, moves: seq<Move>) {
    forall lesson, name :: lesson in g && Holds(s, teacher, lesson, name) ==> !Misplaced(g, s, teacher, moves, lesson, name)
  }

  /** With no leftovers: the class's new name is held by a class that is not itself renamed. */
  ghost predicate Blocked(g: Grades, s: Tables, teacher: nat, moves: seq<Move>, lesson: nat, name: Label)
    requires lesson in g
  {
    && LastFrom(moves, g[lesson], name) >= 0
    && Holds(s, teacher, lesson, Relabel(moves, g[lesson], name))
    && LastFrom(moves, g[lesson], Relabel(moves, g[lesson], name)) < 0
  }

  ghost predicate Unblocked(g: Grades, s: Tables, teacher: nat, moves: seq<Move>) {
    forall lesson, name :: lesson in g && Holds(s, teacher, lesson, name) ==> !Blocked(g, s, teacher, moves, lesson, name)
  }

  predicate DistinctSources(moves: seq<Move>) {
    forall i, j :: 0 <= i < j < |moves| && moves[i].grade == moves[j].grade ==> moves[i].source != moves[j].source
  }

  predicate DistinctTargets(moves: seq<Move>) {
    forall i, j :: 0 <= i < j < |moves| && moves[i].grade == moves[j].grade ==> moves[i].target != moves[j].target
  }

  // ----- what one pass does to one label -----

  /** The move that decides a landing: the last that carries the label, or -1. */
  lemma {:induction false} DecidingMove(g: Grades, s: Tables, teacher: nat, es: seq<Move>, lesson: nat, name: Label) returns (i: int)
    ensures -1 <= i < |es|
    ensures i < 0 ==> Landing(g, s, teacher, es, lesson, name) == name
    ensures i >= 0 ==> Carries(g, s, teacher, es[i], lesson, name) && Landing(g, s, teacher, es, lesson, name) == es[i].target
    ensures forall j :: i < j < |es| ==> !Carries(g, s, teacher, es[j], lesson, name)
  {
    if es == [] {
      i := -1;
    } else if Carries(g, s, teacher, es[|es| - 1], lesson, name) {
      i := |es| - 1;
    } else {
      i := DecidingMove(g, s, teacher, es[..|es| - 1], lesson, name);
    }
  }

  lemma StageLanding(g: Grades, s: Tables, teacher: nat, moves: seq<Move>, lesson: nat, name: Label)
    requires lesson in g
    ensures var i := FreeFrom(s, teacher, moves, lesson, g[lesson], name);
      Landing(g, s, teacher, Stage(moves), lesson, name) == if i >= 0 then Holding(i) else name
  {
    var i := DecidingMove(g, s, teacher, Stage(moves), lesson, name);
    var last := FreeFrom(s, teacher, moves, lesson, g[lesson], name);
    if last >= 0 {
      assert Carries(g, s, teacher, Stage(moves)[last], lesson, name);
    }
  }

  lemma HeldAfterStage(g: Grades, s: Tables, teacher: nat, moves: seq<Move>, lesson: nat, name: Label)
    requires lesson in g && forall i :: 0 <= i < |moves| ==> name != Holding(i)
    ensures Holds(Pass(g, s, teacher, Stage(moves)), teacher, lesson, name) <==> Stays(g, s, teacher, moves, lesson, name)
  {
    HoldsAfterPass(g, s, teacher, Stage(moves), lesson, name);
    StageLanding(g, s, teacher, moves, lesson, name);
    forall from | Landing(g, s, teacher, Stage(moves), lesson, from) == name ensures from == name {
      StageLanding(g, s, teacher, moves, lesson, from);
    }
  }

  /** Where the two passes leave one lesson's rows under one label. */
  ghost function FinalLabel(g: Grades, s: Tables, teacher: nat, moves: seq<Move>, lesson: nat, name: Label): Label {
    Landing(g, Pass(g, s, teacher, Stage(moves)), teacher, Land(moves), lesson,
            Landing(g, s, teacher, Stage(moves), lesson, name))
  }

  /** The second pass moves what waits under a holding label of the lesson's grade, unless its
      target is still held. */
  lemma LandLanding(g: Grades, t: Tables, teacher: nat, moves: seq<Move>, lesson: nat, name: Label)
    requires lesson in g
    ensures var i := WaitingAt(|moves|, name);
      Landing(g, t, teacher, Land(moves), lesson, name)
        == if i >= 0 && moves[i].grade == g[lesson] && !Holds(t, teacher, lesson, moves[i].target) then moves[i].target else name
  {
    var i := WaitingAt(|moves|, name);
    var j := DecidingMove(g, t, teacher, Land(moves), lesson, name);
    if i >= 0 {
      assert Land(moves)[i] == Move(moves[i].grade, Holding(i), moves[i].target);
      if j >= 0 {
        HoldingInjective(i, j);
      }
    }
  }

  lemma WaitingIs(n: nat, i: nat)
    requires i < n
    ensures WaitingAt(n, Holding(i)) == i
  {
    HoldingInjective(i, WaitingAt(n, Holding(i)));
  }

  /** Every label ends where the stored labels say, whatever was left over before. */
  lemma FinalLanding(g: Grades, s: Tables, teacher: nat, moves: seq<Move>, lesson: nat, name: Label)
    requires Unreserved(moves) && lesson in g
    ensures FinalLabel(g, s, teacher, moves, lesson, name) == EndsAt(g, s, teacher, moves, lesson, name)
  {
    var staged := Pass(g, s, teacher, Stage(moves));
    var left, i := WaitingAt(|moves|, name), FreeFrom(s, teacher, moves, lesson, g[lesson], name);
    StageLanding(g, s, teacher, moves, lesson, name);
    if i >= 0 {
      WaitingIs(|moves|, i);
    }
    var at := if left >= 0 then left else i;
    LandLanding(g, staged, teacher, moves, lesson, if i >= 0 then Holding(i) else name);
    if at >= 0 {
      HeldAfterStage(g, s, teacher, moves, lesson, moves[at].target);
    }
  }

  /** A label ends on its new name exactly when nothing bars it. */
  lemma EndsRelabelled(g: Grades, s: Tables, teacher: nat, moves: seq<Move>, lesson: nat, name: Label)
    requires Unreserved(moves) && Changing(moves) && lesson in g
    ensures EndsAt(g, s, teacher, moves, lesson, name) == Relabel(moves, g[lesson], name)
      <==> !Misplaced(g, s, teacher, moves, lesson, name)
  {
  }

  /** Leftovers under a holding label of this edit are swept up exactly when its move is one of
      the lesson's grade and no class stays under the move's target. */
  lemma LeftoversExactly(g: Grades, s: Tables, teacher: nat, moves: seq<Move>, lesson: nat, i: nat)
    requires Unreserved(moves) && lesson in g && i < |moves|
    ensures FinalLabel(g, s, teacher, moves, lesson, Holding(i)) == moves[i].target
      <==> moves[i].grade == g[lesson] && !Stays(g, s, teacher, moves, lesson, moves[i].target)
    ensures FinalLabel(g, s, teacher, moves, lesson, Holding(i)) in {moves[i].target, Holding(i)}
  {
    WaitingIs(|moves|, i);
    FinalLanding(g, s, teacher, moves, lesson, Holding(i));
  }

  lemma FreeIsLast(s: Tables, teacher: nat, moves: seq<Move>, lesson: nat, grade: int, name: Label)
    requires forall i :: 0 <= i < |moves| ==> !Holds(s, teacher, lesson, Holding(i))
    ensures FreeFrom(s, teacher, moves, lesson, grade, name) == LastFrom(moves, grade, name)
  {
  }

  /** With nothing left over, a lesson is misplaced exactly when it is blocked. */
  lemma MisplacedIsBlocked(g: Grades, s: Tables, teacher: nat, moves: seq<Move>, lesson: nat, name: Label)
    requires HoldingFree(s, teacher, moves) && lesson in g && Holds(s, teacher, lesson, name)
    ensures Misplaced(g, s, teacher, moves, lesson, name) <==> Blocked(g, s, teacher, moves, lesson, name)
  {
    FreeIsLast(s, teacher, moves, lesson, g[lesson], name);
    FreeIsLast(s, teacher, moves, lesson, g[lesson], Relabel(moves, g[lesson], name));
  }

  lemma NoMovesOutside(g: Grades, s: Tables, teacher: nat, es: seq<Move>, lesson: nat, name: Label)
    requires lesson !in g
    ensures Landing(g, s, teacher, es, lesson, name) == name
  {
  }

  lemma TwoPassRow(g: Grades, s: Tables, teacher: nat, moves: seq<Move>, m: nat, k: nat)
    requires m < MODELS && k < |s[m]|
    ensures |TwoPass(g, s, teacher, moves)[m]| == |s[m]|
    ensures TwoPass(g, s, teacher, moves)[m][k]
         == if s[m][k].teacher == teacher
            then s[m][k].(section := FinalLabel(g, s, teacher, moves, s[m][k].lesson, s[m][k].section))
            else s[m][k]
  {
  }

  /** Where each stored row is after the two passes. */
  lemma RowEnds(g: Grades, s: Tables, teacher: nat, moves: seq<Move>, m: nat, k: nat)
    requires Unreserved(moves) && m < MODELS && k < |s[m]|
    ensures |TwoPass(g, s, teacher, moves)[m]| == |s[m]|
    ensures TwoPass(g, s, teacher, moves)[m][k]
         == if s[m][k].teacher == teacher && s[m][k].lesson in g
            then s[m][k].(section := EndsAt(g, s, teacher, moves, s[m][k].lesson, s[m][k].section))
            else s[m][k]
    ensures s[m][k].teacher == teacher ==> Holds(s, teacher, s[m][k].lesson, s[m][k].section)
  {
    var r := s[m][k];
    TwoPassRow(g, s, teacher, moves, m, k);
    if r.teacher == teacher {
      assert Under(r, teacher, r.lesson, r.section);
      if r.lesson in g {
        FinalLanding(g, s, teacher, moves, r.lesson, r.section);
      } else {
        NoMovesOutside(g, s, teacher, Stage(moves), r.lesson, r.section);
        NoMovesOutside(g, Pass(g, s, teacher, Stage(moves)), teacher, Land(moves), r.lesson, r.section);
      }
    }
  }

  lemma TwoPassSizes(g: Grades, s: Tables, teacher: nat, moves: seq<Move>, m: nat)
    requires m < MODELS
    ensures |TwoPass(g, s, teacher, moves)[m]| == |s[m]|
  {
    PassAt(g, s, teacher, Stage(moves), m);
    PassAt(g, Pass(g, s, teacher, Stage(moves)), teacher, Land(moves), m);
  }

  /** The two passes are one simultaneous relabelling of all three tables exactly when, for
      every lesson, nothing left over by earlier edits is swept up and every renamed class has
      its holding label free and its new name not held by a class that stays. */
  lemma TwoPassesRelabel(g: Grades, s: Tables, teacher: nat, moves: seq<Move>)
    requires Unreserved(moves) && Changing(moves)
    ensures IsRelabelled(g, s, teacher, moves, TwoPass(g, s, teacher, moves)) <==> NoneMisplaced(g, s, teacher, moves)
    ensures HoldingFree(s, teacher, moves) ==> (NoneMisplaced(g, s, teacher, moves) <==> Unblocked(g, s, teacher, moves))
  {
    var t := TwoPass(g, s, teacher, moves);
    forall m | 0 <= m < MODELS ensures |t[m]| == |s[m]| {
      TwoPassSizes(g, s, teacher, moves, m);
    }
    forall m, k | 0 <= m < MODELS && 0 <= k < |s[m]|
      ensures s[m][k].teacher == teacher && s[m][k].lesson in g ==>
        && Holds(s, teacher, s[m][k].lesson, s[m][k].section)
        && (t[m][k] == RelabelRow(g, teacher, moves, s[m][k]) <==> !Misplaced(g, s, teacher, moves, s[m][k].lesson, s[m][k].section))
      ensures s[m][k].teacher != teacher || s[m][k].lesson !in g ==> t[m][k] == RelabelRow(g, teacher, moves, s[m][k])
    {
      RowEnds(g, s, teacher, moves, m, k);
      if s[m][k].lesson in g {
        EndsRelabelled(g, s, teacher, moves, s[m][k].lesson, s[m][k].section);
      }
    }
    if IsRelabelled(g, s, teacher, moves, t) {
      forall lesson, name | lesson in g && Holds(s, teacher, lesson, name) ensures !Misplaced(g, s, teacher, moves, lesson, name) {
        var m, k :| 0 <= m < MODELS && 0 <= k < |s[m]| && Under(s[m][k], teacher, lesson, name);
      }
    }
    if HoldingFree(s, teacher, moves) {
      forall lesson, name | lesson in g && Holds(s, teacher, lesson, name)
        ensures Misplaced(g, s, teacher, moves, lesson, name) <==> Blocked(g, s, teacher, moves, lesson, name)
      {
        MisplacedIsBlocked(g, s, teacher, moves, lesson, name);
      }
    }
  }

  /** For one lesson and one move: nothing waits under its holding label when it has rows to
      carry, and no class stays under its target then; and leftovers it would sweep up find a
      class that does. */
  ghost predicate MoveGoes(g: Grades, s: Tables, teacher: nat, moves: seq<Move>, lesson: nat, i: nat)
    requires lesson in g && i < |moves|
  {
    && (Holds(s, teacher, lesson, moves[i].source) ==>
          !Holds(s, teacher, lesson, Holding(i)) && !Stays(g, s, teacher, moves, lesson, moves[i].target))
    && (Holds(s, teacher, lesson, Holding(i)) ==> Stays(g, s, teacher, moves, lesson, moves[i].target))
  }

  lemma MisplacedMove(g: Grades, s: Tables, teacher: nat, moves: seq<Move>, lesson: nat, i: nat)
    requires Unreserved(moves) && DistinctSources(moves) && lesson in g && i < |moves| && moves[i].grade == g[lesson]
    ensures Misplaced(g, s, teacher, moves, lesson, moves[i].source)
      <==> Holds(s, teacher, lesson, Holding(i)) || Stays(g, s, teacher, moves, lesson, moves[i].target)
    ensures Misplaced(g, s, teacher, moves, lesson, Holding(i)) <==> !Stays(g, s, teacher, moves, lesson, moves[i].target)
  {
    WaitingIs(|moves|, i);
    assert WaitingAt(|moves|, moves[i].source) < 0;
    assert LastFrom(moves, g[lesson], moves[i].source) == i;
  }

  lemma MisplacedByMove(g: Grades, s: Tables, teacher: nat, moves: seq<Move>, lesson: nat, name: Label) returns (i: nat)
    requires lesson in g && Misplaced(g, s, teacher, moves, lesson, name)
    ensures i < |moves| && moves[i].grade == g[lesson] && (name == moves[i].source || name == Holding(i))
  {
    var left := WaitingAt(|moves|, name);
    i := if left >= 0 then left else LastFrom(moves, g[lesson], name);
  }

  /** When no class is renamed twice, nothing is misplaced exactly when every move of every
      lesson's grade goes through. */
  lemma MisplacedPerMove(g: Grades, s: Tables, teacher: nat, moves: seq<Move>)
    requires Unreserved(moves) && DistinctSources(moves)
    ensures NoneMisplaced(g, s, teacher, moves) <==>
      forall lesson, i :: lesson in g && 0 <= i < |moves| && moves[i].grade == g[lesson] ==> MoveGoes(g, s, teacher, moves, lesson, i)
  {
    if NoneMisplaced(g, s, teacher, moves) {
      forall lesson, i | lesson in g && 0 <= i < |moves| && moves[i].grade == g[lesson] ensures MoveGoes(g, s, teacher, moves, lesson, i) {
        MisplacedMove(g, s, teacher, moves, lesson, i);
      }
    } else {
      var lesson, name :| lesson in g && Holds(s, teacher, lesson, name) && Misplaced(g, s, teacher, moves, lesson, name);
      var i := MisplacedByMove(g, s, teacher, moves, lesson, name);
      MisplacedMove(g, s, teacher, moves, lesson, i);
      assert !MoveGoes(g, s, teacher, moves, lesson, i);
    }
  }

  // ----- order of the renames -----

  lemma SameMovesSameRelabel(a: seq<Move>, b: seq<Move>, grade: int, name: Label)
    requires multiset(a) == multiset(b)
    requires DistinctSources(a) && DistinctSources(b)
    ensures Relabel(a, grade, name) == Relabel(b, grade, name)
    ensures LastFrom(a, grade, name) >= 0 <==> LastFrom(b, grade, name) >= 0
  {
    var i, j := LastFrom(a, grade, name), LastFrom(b, grade, name);
    if i >= 0 {
      assert a[i] in multiset(b);
      var k :| 0 <= k < |b| && b[k] == a[i];
      assert k == j;
    }
    if j >= 0 {
      assert b[j] in multiset(a);
      var k :| 0 <= k < |a| && a[k] == b[j];
      assert k == i;
    }
  }

  lemma SameMovesSameSize(a: seq<Move>, b: seq<Move>)
    requires multiset(a) == multiset(b)
    ensures |a| == |b|
  {
    assert |multiset(a)| == |a| && |multiset(b)| == |b|;
  }

  lemma SameEnds(g: Grades, s: Tables, teacher: nat, a: seq<Move>, b: seq<Move>)
    requires Unreserved(a) && Unreserved(b)
    ensures TwoPass(g, s, teacher, a) == TwoPass(g, s, teacher, b) <==>
      forall lesson, name :: lesson in g && Holds(s, teacher, lesson, name) ==>
        EndsAt(g, s, teacher, a, lesson, name) == EndsAt(g, s, teacher, b, lesson, name)
  {
    var x, y := TwoPass(g, s, teacher, a), TwoPass(g, s, teacher, b);
    if x == y {
      forall lesson, name | lesson in g && Holds(s, teacher, lesson, name)
        ensures EndsAt(g, s, teacher, a, lesson, name) == EndsAt(g, s, teacher, b, lesson, name)
      {
        var m, k :| 0 <= m < MODELS && 0 <= k < |s[m]| && Under(s[m][k], teacher, lesson, name);
        RowEnds(g, s, teacher, a, m, k);
        RowEnds(g, s, teacher, b, m, k);
      }
    }
    if forall lesson, name :: lesson in g && Holds(s, teacher, lesson, name) ==>
         EndsAt(g, s, teacher, a, lesson, name) == EndsAt(g, s, teacher, b, lesson, name) {
      forall m | 0 <= m < MODELS ensures x[m] == y[m] {
        TwoPassSizes(g, s, teacher, a, m);
        TwoPassSizes(g, s, teacher, b, m);
        forall k | 0 <= k < |s[m]| ensures x[m][k] == y[m][k] {
          RowEnds(g, s, teacher, a, m, k);
          RowEnds(g, s, teacher, b, m, k);
        }
      }
    }
  }

  /** Two orders of one list of renames give the same tables exactly when they end every stored
      label alike. When no class is renamed twice and nothing is left over, that fails only for
      a blocked class, which the number of its rename would leave under another holding label. */
  lemma OrderIrrelevant(g: Grades, s: Tables, teacher: nat, a: seq<Move>, b: seq<Move>)
    requires multiset(a) == multiset(b) && Unreserved(a)
    ensures TwoPass(g, s, teacher, a) == TwoPass(g, s, teacher, b) <==>
      forall lesson, name :: lesson in g && Holds(s, teacher, lesson, name) ==>
        EndsAt(g, s, teacher, a, lesson, name) == EndsAt(g, s, teacher, b, lesson, name)
    ensures DistinctSources(a) && DistinctSources(b) && HoldingFree(s, teacher, a) ==>
      (TwoPass(g, s, teacher, a) == TwoPass(g, s, teacher, b) <==>
        forall lesson, name :: lesson in g && Holds(s, teacher, lesson, name) && Blocked(g, s, teacher, a, lesson, name) ==>
          LastFrom(a, g[lesson], name) == LastFrom(b, g[lesson], name))
  {
    SameMovesSameSize(a, b);
    forall i, j | 0 <= i < |b| && 0 <= j < |b| ensures b[i].source != Holding(j) && b[i].target != Holding(j) {
      assert b[i] in multiset(a);
      var k :| 0 <= k < |a| && a[k] == b[i];
    }
    SameEnds(g, s, teacher, a, b);
    if DistinctSources(a) && DistinctSources(b) && HoldingFree(s, teacher, a) {
      forall lesson, name | lesson in g && Holds(s, teacher, lesson, name)
        ensures EndsAt(g, s, teacher, a, lesson, name) == EndsAt(g, s, teacher, b, lesson, name)
          <==> (Blocked(g, s, teacher, a, lesson, name) ==> LastFrom(a, g[lesson], name) == LastFrom(b, g[lesson], name))
      {
        SameEndOf(g, s, teacher, a, b, lesson, name);
      }
    }
  }

  lemma FreshEnds(g: Grades, s: Tables, teacher: nat, moves: seq<Move>, lesson: nat, name: Label)
    requires HoldingFree(s, teacher, moves) && lesson in g && Holds(s, teacher, lesson, name)
    ensures EndsAt(g, s, teacher, moves, lesson, name)
         == if Blocked(g, s, teacher, moves, lesson, name) then Holding(LastFrom(moves, g[lesson], name)) else Relabel(moves, g[lesson], name)
  {
    FreeIsLast(s, teacher, moves, lesson, g[lesson], name);
    FreeIsLast(s, teacher, moves, lesson, g[lesson], Relabel(moves, g[lesson], name));
  }

  lemma SameEndOf(g: Grades, s: Tables, teacher: nat, a: seq<Move>, b: seq<Move>, lesson: nat, name: Label)
    requires multiset(a) == multiset(b) && |a| == |b| && DistinctSources(a) && DistinctSources(b)
    requires HoldingFree(s, teacher, a) && lesson in g && Holds(s, teacher, lesson, name)
    ensures EndsAt(g, s, teacher, a, lesson, name) == EndsAt(g, s, teacher, b, lesson, name)
      <==> (Blocked(g, s, teacher, a, lesson, name) ==> LastFrom(a, g[lesson], name) == LastFrom(b, g[lesson], name))
  {
    FreshEnds(g, s, teacher, a, lesson, name);
    FreshEnds(g, s, teacher, b, lesson, name);
    SameMovesSameRelabel(a, b, g[lesson], name);
    SameMovesSameRelabel(a, b, g[lesson], Relabel(a, g[lesson], name));
    if LastFrom(a, g[lesson], name) >= 0 {
      HoldingInjective(LastFrom(a, g[lesson], name), LastFrom(b, g[lesson], name));
    }
  }

  // ----- never two classes under one label -----

  /** The first pass always keeps the rooms, whatever the tables hold. */
  lemma StageApart(g: Grades, s: Tables, teacher: nat, moves: seq<Move>)
    ensures Apart(g, s, teacher, Stage(moves))
  {
    forall lesson, x, y | Holds(s, teacher, lesson, x) && Holds(s, teacher, lesson, y) && x != y
      ensures Landing(g, s, teacher, Stage(moves), lesson, x) != Landing(g, s, teacher, Stage(moves), lesson, y)
    {
      var i := DecidingMove(g, s, teacher, Stage(moves), lesson, x);
      var j := DecidingMove(g, s, teacher, Stage(moves), lesson, y);
      if i >= 0 && j >= 0 {
        HoldingInjective(i, j);
      }
    }
  }

  lemma LandApart(g: Grades, s: Tables, teacher: nat, moves: seq<Move>)
    requires DistinctTargets(moves)
    ensures Apart(g, s, teacher, Land(moves))
  {
    forall lesson, x, y | Holds(s, teacher, lesson, x) && Holds(s, teacher, lesson, y) && x != y
      ensures Landing(g, s, teacher, Land(moves), lesson, x) != Landing(g, s, teacher, Land(moves), lesson, y)
    {
      var i := DecidingMove(g, s, teacher, Land(moves), lesson, x);
      var j := DecidingMove(g, s, teacher, Land(moves), lesson, y);
      if i >= 0 && j >= 0 {
        assert i != j;
        assert moves[i].grade == moves[j].grade;
      }
    }
  }

  lemma TwoPassKeepsRows(g: Grades, s: Tables, teacher: nat, moves: seq<Move>)
    ensures OnlyLabels(s, TwoPass(g, s, teacher, moves), teacher)
  {
  }

  /** With distinct targets per grade, no edit splits a lesson's records of a class or folds
      two classes together, even when some rows end up stuck under a holding label. */
  lemma RoomsKept(g: Grades, s: Tables, teacher: nat, moves: seq<Move>)
    requires DistinctTargets(moves)
    ensures OnlyLabels(s, TwoPass(g, s, teacher, moves), teacher)
    ensures SameRooms(s, TwoPass(g, s, teacher, moves))
  {
    var staged := Pass(g, s, teacher, Stage(moves));
    PassKeepsRows(g, s, teacher, Stage(moves));
    PassKeepsRows(g, staged, teacher, Land(moves));
    StageApart(g, s, teacher, moves);
    LandApart(g, staged, teacher, moves);
    PassRooms(g, s, teacher, Stage(moves));
    PassRooms(g, staged, teacher, Land(moves));
    RoomsCompose(s, staged, TwoPass(g, s, teacher, moves), teacher);
  }

  /** Two chat messages about one lesson, said in the two classes that are renamed alike. */
  ghost function TwoRooms(teacher: nat, lesson: nat, x: Label, y: Label): Tables {
    [[], [Row(0, teacher, lesson, x, false), Row(1, teacher, lesson, y, false)], []]
  }

  lemma TwoRoomsHold(teacher: nat, lesson: nat, x: Label, y: Label, other: nat, name: Label)
    ensures Holds(TwoRooms(teacher, lesson, x, y), teacher, other, name) <==> other == lesson && (name == x || name == y)
  {
    var s := TwoRooms(teacher, lesson, x, y);
    assert s[CHAT] == [Row(0, teacher, lesson, x, false), Row(1, teacher, lesson, y, false)];
    if other == lesson && name == x {
      assert Under(s[CHAT][0], teacher, lesson, x);
    }
    if other == lesson && name == y {
      assert Under(s[CHAT][1], teacher, lesson, y);
    }
  }

  lemma OnlyMoveFrom(moves: seq<Move>, i: nat)
    requires DistinctSources(moves) && i < |moves|
    ensures LastFrom(moves, moves[i].grade, moves[i].source) == i
  {
  }

  /** Every class that holds the lesson is renamed. */
  ghost predicate AllMove(s: Tables, teacher: nat, moves: seq<Move>, lesson: nat, grade: int) {
    forall name :: Holds(s, teacher, lesson, name) ==> LastFrom(moves, grade, name) >= 0
  }

  lemma NothingWaits(s: Tables, teacher: nat, moves: seq<Move>, lesson: nat, grade: int, k: nat)
    requires Unreserved(moves) && AllMove(s, teacher, moves, lesson, grade) && k < |moves|
    ensures !Holds(s, teacher, lesson, Holding(k))
  {
  }

  /** Then each ends on its new name. */
  lemma MergeEnds(g: Grades, s: Tables, teacher: nat, moves: seq<Move>, lesson: nat, i: nat)
    requires DistinctSources(moves) && Unreserved(moves) && i < |moves| && InGrade(g, lesson, moves[i].grade)
    requires AllMove(s, teacher, moves, lesson, g[lesson])
    ensures FinalLabel(g, s, teacher, moves, lesson, moves[i].source) == moves[i].target
  {
    forall k | 0 <= k < |moves| ensures !Holds(s, teacher, lesson, Holding(k)) {
      NothingWaits(s, teacher, moves, lesson, g[lesson], k);
    }
    OnlyMoveFrom(moves, i);
    FreeIsLast(s, teacher, moves, lesson, g[lesson], moves[i].source);
    FreeIsLast(s, teacher, moves, lesson, g[lesson], moves[i].target);
    FinalLanding(g, s, teacher, moves, lesson, moves[i].source);
  }

  lemma MergeWitness(g: Grades, teacher: nat, moves: seq<Move>, lesson: nat, i: nat, j: nat)
    requires i < j < |moves| && moves[i].grade == moves[j].grade && moves[i].target == moves[j].target
    requires DistinctSources(moves) && Changing(moves) && Unreserved(moves)
    requires InGrade(g, lesson, moves[i].grade)
    ensures OnlyLabels(TwoRooms(teacher, lesson, moves[i].source, moves[j].source),
                       TwoPass(g, TwoRooms(teacher, lesson, moves[i].source, moves[j].source), teacher, moves), teacher)
    ensures !SameRooms(TwoRooms(teacher, lesson, moves[i].source, moves[j].source),
                       TwoPass(g, TwoRooms(teacher, lesson, moves[i].source, moves[j].source), teacher, moves))
  {
    var x, y := moves[i].source, moves[j].source;
    var s := TwoRooms(teacher, lesson, x, y);
    TwoPassKeepsRows(g, s, teacher, moves);
    forall other, name ensures Holds(s, teacher, other, name) <==> other == lesson && (name == x || name == y) {
      TwoRoomsHold(teacher, lesson, x, y, other, name);
    }
    OnlyMoveFrom(moves, i);
    OnlyMoveFrom(moves, j);
    MergeEnds(g, s, teacher, moves, lesson, i);
    MergeEnds(g, s, teacher, moves, lesson, j);
    TwoPassRow(g, s, teacher, moves, CHAT, 0);
    TwoPassRow(g, s, teacher, moves, CHAT, 1);
    assert SameLesson(s[CHAT][0], s[CHAT][1]);
  }

  /** Leftovers of two earlier edits that two renames sweep up onto one label. */
  lemma LeftoverWitness(g: Grades, teacher: nat, moves: seq<Move>, lesson: nat, i: nat, j: nat)
    requires i < j < |moves| && moves[i].grade == moves[j].grade && moves[i].target == moves[j].target
    requires Unreserved(moves) && InGrade(g, lesson, moves[i].grade)
    ensures OnlyLabels(TwoRooms(teacher, lesson, Holding(i), Holding(j)),
                       TwoPass(g, TwoRooms(teacher, lesson, Holding(i), Holding(j)), teacher, moves), teacher)
    ensures !SameRooms(TwoRooms(teacher, lesson, Holding(i), Holding(j)),
                       TwoPass(g, TwoRooms(teacher, lesson, Holding(i), Holding(j)), teacher, moves))
  {
    var x, y := Holding(i), Holding(j);
    var s := TwoRooms(teacher, lesson, x, y);
    TwoPassKeepsRows(g, s, teacher, moves);
    forall name ensures Holds(s, teacher, lesson, name) <==> name == x || name == y {
      TwoRoomsHold(teacher, lesson, x, y, lesson, name);
    }
    HoldingInjective(i, j);
    LeftoversExactly(g, s, teacher, moves, lesson, i);
    LeftoversExactly(g, s, teacher, moves, lesson, j);
    TwoPassRow(g, s, teacher, moves, CHAT, 0);
    TwoPassRow(g, s, teacher, moves, CHAT, 1);
    assert SameLesson(s[CHAT][0], s[CHAT][1]);
  }

  /** The rooms survive every state of the tables exactly when no two classes of a grade
      that has lessons are renamed to one label. */
  lemma RoomsKeptExactly(g: Grades, teacher: nat, moves: seq<Move>)
    requires Unreserved(moves)
    requires forall i :: 0 <= i < |moves| ==> exists lesson :: InGrade(g, lesson, moves[i].grade)
    ensures DistinctTargets(moves)
       <==> forall s: Tables :: OnlyLabels(s, TwoPass(g, s, teacher, moves), teacher) && SameRooms(s, TwoPass(g, s, teacher, moves))
  {
    if DistinctTargets(moves) {
      forall s: Tables ensures OnlyLabels(s, TwoPass(g, s, teacher, moves), teacher) && SameRooms(s, TwoPass(g, s, teacher, moves)) {
        RoomsKept(g, s, teacher, moves);
      }
    } else {
      var i, j :| 0 <= i < j < |moves| && moves[i].grade == moves[j].grade && moves[i].target == moves[j].target;
      var lesson :| InGrade(g, lesson, moves[i].grade);
      LeftoverWitness(g, teacher, moves, lesson, i, j);
    }
  }
}
