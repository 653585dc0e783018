/** The three tables a class's history lives in, and what one pass of label moves
    does to them.

    A class is a label. Every query in the service selects rows by the labels the
    database holds, while the session it runs in keeps its own, newer labels until
    they are flushed; `Pass` is the net effect of a list of moves that all select
    against the same stored picture. */
module SectionTables {

  type Label = string

  /** The label of a grade whose classes are not named. */
  const NO_SECTION: Label := ""

  /** Progress, chat messages and access requests, in the order they are walked. */
  const MODELS: nat := 3
  const PROGRESS: nat := 0
  const CHAT: nat := 1
  const REQUESTS: nat := 2

  /** One row of any of the three. `pending` is read only in REQUESTS. */
  datatype Row = Row(id: nat, teacher: nat, lesson: nat, section: Label, pending: bool)

  type Tables = t: seq<seq<Row>> | |t| == MODELS witness [[], [], []]

  /** The grade each lesson belongs to. */
  type Grades = map<nat, int>

  /** Move the history of one class of one grade to another label. */
  datatype Move = Move(grade: int, source: Label, target: Label)

  predicate InGrade(g: Grades, lesson: nat, grade: int) {
    lesson in g && g[lesson] == grade
  }

  predicate Under(r: Row, teacher: nat, lesson: nat, name: Label) {
    r.teacher == teacher && r.lesson == lesson && r.section == name
  }

  /** Some history, in any of the tables, is kept for the lesson under the label. */
  ghost predicate Holds(s: Tables, teacher: nat, lesson: nat, name: Label) {
    exists m, k :: 0 <= m < MODELS && 0 <= k < |s[m]| && Under(s[m][k], teacher, lesson, name)
  }

  /** Whether a move carries the lesson's rows under `name`: they are its source, and
      its target holds nothing for that lesson yet. */
  ghost predicate Carries(g: Grades, s: Tables, teacher: nat, e: Move, lesson: nat, name: Label) {
    InGrade(g, lesson, e.grade) && name == e.source && !Holds(s, teacher, lesson, e.target)
  }

  /** Where a list of moves leaves one lesson's rows under one label. They all select by
      the stored label, so the last one that carries it decides. */
  ghost function Landing(g: Grades, s: Tables, teacher: nat, es: seq<Move>, lesson: nat, name: Label): (r: Label)
  {
    if es == [] then name
    else
      var e := es[|es| - 1];
      if Carries(g, s, teacher, e, lesson, name) then e.target
      else Landing(g, s, teacher, es[..|es| - 1], lesson, name)
  }

  ghost function PassRow(g: Grades, s: Tables, teacher: nat, es: seq<Move>, r: Row): Row {
    if r.teacher == teacher
    then r.(section := Landing(g, s, teacher, es, r.lesson, r.section))
    else r
  }

  ghost function PassTable(g: Grades, s: Tables, teacher: nat, es: seq<Move>, t: seq<Row>): seq<Row> {
    seq(|t|, k requires 0 <= k < |t| => PassRow(g, s, teacher, es, t[k]))
  }

  /** The tables after a list of moves that all selected against `s`. */
  ghost function Pass(g: Grades, s: Tables, teacher: nat, es: seq<Move>): Tables {
    [PassTable(g, s, teacher, es, s[0]),
     PassTable(g, s, teacher, es, s[1]),
     PassTable(g, s, teacher, es, s[2])]
  }

  lemma PassAt(g: Grades, s: Tables, teacher: nat, es: seq<Move>, m: nat)
    requires m < MODELS
    ensures |Pass(g, s, teacher, es)[m]| == |s[m]|
    ensures forall k :: 0 <= k < |s[m]| ==> Pass(g, s, teacher, es)[m][k] == PassRow(g, s, teacher, es, s[m][k])
  {
  }

  /** After a pass, a lesson is held under exactly the landings of the labels that held it. */
  lemma HoldsAfterPass(g: Grades, s: Tables, teacher: nat, es: seq<Move>, lesson: nat, name: Label)
    ensures Holds(Pass(g, s, teacher, es), teacher, lesson, name)
       <==> exists from :: Holds(s, teacher, lesson, from) && Landing(g, s, teacher, es, lesson, from) == name
  {
    var p := Pass(g, s, teacher, es);
    forall m | 0 <= m < MODELS ensures |p[m]| == |s[m]| && forall k :: 0 <= k < |s[m]| ==> p[m][k] == PassRow(g, s, teacher, es, s[m][k]) {
      PassAt(g, s, teacher, es, m);
    }
    if Holds(p, teacher, lesson, name) {
      var m, k :| 0 <= m < MODELS && 0 <= k < |p[m]| && Under(p[m][k], teacher, lesson, name);
      assert Under(s[m][k], teacher, lesson, s[m][k].section);
      assert Holds(s, teacher, lesson, s[m][k].section);
    }
    if from :| Holds(s, teacher, lesson, from) && Landing(g, s, teacher, es, lesson, from) == name {
      var m, k :| 0 <= m < MODELS && 0 <= k < |s[m]| && Under(s[m][k], teacher, lesson, from);
      assert Under(p[m][k], teacher, lesson, name);
    }
  }

  // ----- what a pass never does -----

  /** Only labels change, and only this teacher's. */
  ghost predicate OnlyLabels(before: Tables, after: Tables, teacher: nat) {
    && (forall m :: 0 <= m < MODELS ==> |after[m]| == |before[m]|)
    && (forall m, k :: 0 <= m < MODELS && 0 <= k < |before[m]| ==>
          after[m][k] == before[m][k].(section := after[m][k].section)
          && (before[m][k].teacher != teacher ==> after[m][k] == before[m][k]))
  }

  predicate SameLesson(a: Row, b: Row) {
    a.teacher == b.teacher && a.lesson == b.lesson
  }

  /** Two rows of one lesson, wherever they are stored, share a label afterwards exactly
      when they did before: no lesson is split between labels, and no two classes'
      records of it are folded together. */
  ghost predicate SameRooms(before: Tables, after: Tables)
    requires forall m :: 0 <= m < MODELS ==> |after[m]| == |before[m]|
  {
    forall m, k, n, j ::
      0 <= m < MODELS && 0 <= k < |before[m]| && 0 <= n < MODELS && 0 <= j < |before[n]|
      && SameLesson(before[m][k], before[n][j])
      ==> (after[m][k].section == after[n][j].section <==> before[m][k].section == before[n][j].section)
  }

  /** Progress is unique per teacher, lesson and class. */
  ghost predicate UniqueProgress(t: seq<Row>) {
    forall k, j :: 0 <= k < j < |t| && SameLesson(t[k], t[j]) ==> t[k].section != t[j].section
  }

  /** At most one request per teacher, lesson and class is pending. */
  ghost predicate OnePending(t: seq<Row>) {
    forall k, j :: 0 <= k < j < |t| && t[k].pending && t[j].pending && SameLesson(t[k], t[j]) ==> t[k].section != t[j].section
  }

  lemma PassKeepsRows(g: Grades, s: Tables, teacher: nat, es: seq<Move>)
    ensures OnlyLabels(s, Pass(g, s, teacher, es), teacher)
  {
  }

  /** No lesson is walked onto a label from two different labels. */
  ghost predicate Apart(g: Grades, s: Tables, teacher: nat, es: seq<Move>) {
    forall lesson, x, y ::
      Holds(s, teacher, lesson, x) && Holds(s, teacher, lesson, y) && x != y
      ==> Landing(g, s, teacher, es, lesson, x) != Landing(g, s, teacher, es, lesson, y)
  }

  /** A pass keeps the rooms exactly when it lands distinct labels apart. */
  lemma PassRooms(g: Grades, s: Tables, teacher: nat, es: seq<Move>)
    ensures OnlyLabels(s, Pass(g, s, teacher, es), teacher)
    ensures SameRooms(s, Pass(g, s, teacher, es)) <==> Apart(g, s, teacher, es)
  {
    var p := Pass(g, s, teacher, es);
    PassKeepsRows(g, s, teacher, es);
    forall m | 0 <= m < MODELS ensures |p[m]| == |s[m]| && forall k :: 0 <= k < |s[m]| ==> p[m][k] == PassRow(g, s, teacher, es, s[m][k]) {
      PassAt(g, s, teacher, es, m);
    }
    if Apart(g, s, teacher, es) {
      forall m, k, n, j |
        0 <= m < MODELS && 0 <= k < |s[m]| && 0 <= n < MODELS && 0 <= j < |s[n]| && SameLesson(s[m][k], s[n][j])
        ensures p[m][k].section == p[n][j].section <==> s[m][k].section == s[n][j].section
      {
        var a, b := s[m][k], s[n][j];
        if a.teacher == teacher && a.section != b.section {
          assert Under(a, teacher, a.lesson, a.section) && Under(b, teacher, a.lesson, b.section);
          assert Holds(s, teacher, a.lesson, a.section) && Holds(s, teacher, a.lesson, b.section);
        }
      }
    }
    if SameRooms(s, p) {
      forall lesson, x, y | Holds(s, teacher, lesson, x) && Holds(s, teacher, lesson, y) && x != y
        ensures Landing(g, s, teacher, es, lesson, x) != Landing(g, s, teacher, es, lesson, y)
      {
        var m, k :| 0 <= m < MODELS && 0 <= k < |s[m]| && Under(s[m][k], teacher, lesson, x);
        var n, j :| 0 <= n < MODELS && 0 <= j < |s[n]| && Under(s[n][j], teacher, lesson, y);
        assert SameLesson(s[m][k], s[n][j]);
        assert p[m][k].section == Landing(g, s, teacher, es, lesson, x);
        assert p[n][j].section == Landing(g, s, teacher, es, lesson, y);
      }
    }
  }

  /** One move by itself, whatever the tables hold, keeps the rooms. */
  lemma OneMoveKeepsRooms(g: Grades, s: Tables, teacher: nat, e: Move)
    ensures OnlyLabels(s, Pass(g, s, teacher, [e]), teacher)
    ensures SameRooms(s, Pass(g, s, teacher, [e]))
  {
    PassRooms(g, s, teacher, [e]);
    forall lesson, x, y | Holds(s, teacher, lesson, x) && Holds(s, teacher, lesson, y) && x != y
      ensures Landing(g, s, teacher, [e], lesson, x) != Landing(g, s, teacher, [e], lesson, y)
    {
      OneMoveLanding(g, s, teacher, e, lesson, x);
      OneMoveLanding(g, s, teacher, e, lesson, y);
    }
  }

  lemma OneMoveLanding(g: Grades, s: Tables, teacher: nat, e: Move, lesson: nat, name: Label)
    ensures Landing(g, s, teacher, [e], lesson, name) == if Carries(g, s, teacher, e, lesson, name) then e.target else name
  {
    assert Landing(g, s, teacher, [e][..0], lesson, name) == name;
  }

  /** Keeping the rooms keeps both uniqueness rules. */
  lemma RoomsKeepUnique(before: Tables, after: Tables, teacher: nat)
    requires OnlyLabels(before, after, teacher) && SameRooms(before, after)
    requires UniqueProgress(before[PROGRESS]) && OnePending(before[REQUESTS])
    ensures UniqueProgress(after[PROGRESS]) && OnePending(after[REQUESTS])
    ensures forall p, q :: p in after[PROGRESS] && q in after[PROGRESS] && p.teacher == q.teacher && p.lesson == q.lesson && p.section == q.section ==> p == q
    ensures forall p, q :: p in after[REQUESTS] && q in after[REQUESTS] && p.pending && q.pending ==>
      p.teacher == q.teacher && p.lesson == q.lesson && p.section == q.section ==> p == q
  {
  }

  lemma RoomsCompose(a: Tables, b: Tables, c: Tables, teacher: nat)
    requires OnlyLabels(a, b, teacher) && OnlyLabels(b, c, teacher)
    requires SameRooms(a, b) && SameRooms(b, c)
    ensures OnlyLabels(a, c, teacher) && SameRooms(a, c)
  {
  }
}
