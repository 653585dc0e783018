/** Class sections: the labels themselves, and the session that re-keys the rows. */
module Sections {
  import opened SectionTables
  import opened SectionRenames
  import opened SectionEdits
  import opened HoldingLabels
  import Sets

  datatype Outcome<T> = Ok(value: T) | Err(error: EditError)

  // ----- labels as they are stored -----

  const MAX_SECTIONS_PER_GRADE: nat := 12
  const MAX_LABEL_LENGTH: nat := 16

  /** Text without the blanks at its ends; `blank` says which characters those are. */
  function Strip(blank: char -> bool, s: string): (r: string)
    ensures |r| <= |s|
    ensures r != "" ==> !blank(r[0]) && !blank(r[|r| - 1])
  {
    if s == "" then ""
    else if blank(s[0]) then Strip(blank, s[1..])
    else if blank(s[|s| - 1]) then Strip(blank, s[..|s| - 1])
    else s
  }

  predicate AllBlank(blank: char -> bool, s: string) {
    forall i :: 0 <= i < |s| ==> blank(s[i])
  }

  /** `middle` with blanks before and after it. */
  predicate Padded(blank: char -> bool, s: string, front: string, middle: string, back: string) {
    s == front + middle + back && AllBlank(blank, front) && AllBlank(blank, back)
  }

  lemma PadFront(blank: char -> bool, s: string, front: string, middle: string, back: string)
    requires s != "" && blank(s[0]) && Padded(blank, s[1..], front, middle, back)
    ensures Padded(blank, s, [s[0]] + front, middle, back)
  {
    assert s == [s[0]] + s[1..];
    assert [s[0]] + (front + middle + back) == [s[0]] + front + middle + back;
  }

  lemma PadBack(blank: char -> bool, s: string, front: string, middle: string, back: string)
    requires s != "" && blank(s[|s| - 1]) && Padded(blank, s[..|s| - 1], front, middle, back)
    ensures Padded(blank, s, front, middle, back + [s[|s| - 1]])
  {
    assert s == s[..|s| - 1] + [s[|s| - 1]];
    assert front + middle + back + [s[|s| - 1]] == front + middle + (back + [s[|s| - 1]]);
  }

  /** Nothing but the blanks around it is taken off a text. */
  lemma {:induction false} StripTakesBlanks(blank: char -> bool, s: string) returns (front: string, back: string)
    ensures Padded(blank, s, front, Strip(blank, s), back)
  {
    front, back := "", "";
    if s != "" && blank(s[0]) {
      front, back := StripTakesBlanks(blank, s[1..]);
      PadFront(blank, s, front, Strip(blank, s), back);
      front := [s[0]] + front;
    } else if s != "" && blank(s[|s| - 1]) {
      front, back := StripTakesBlanks(blank, s[..|s| - 1]);
      PadBack(blank, s, front, Strip(blank, s), back);
      back := back + [s[|s| - 1]];
    } else {
      assert "" + s + "" == s;
    }
  }

  function Clean(blank: char -> bool, s: string): (r: Label)
    ensures |r| <= MAX_LABEL_LENGTH
    ensures r != "" ==> !blank(r[0])
  {
    var t := Strip(blank, s);
    if |t| <= MAX_LABEL_LENGTH then t else t[..MAX_LABEL_LENGTH]
  }

  /** Already in the form `Clean` gives a label that was not cut. */
  predicate Tidy(blank: char -> bool, s: string) {
    0 < |s| <= MAX_LABEL_LENGTH && !blank(s[0]) && !blank(s[|s| - 1])
  }

  predicate Distinct(names: seq<Label>) {
    forall i, j :: 0 <= i < j < |names| ==> names[i] != names[j]
  }

  predicate FoldsDistinct(fold: string -> string, names: seq<Label>) {
    forall i, j :: 0 <= i < j < |names| ==> fold(names[i]) != fold(names[j])
  }

  predicate FoldIn(fold: string -> string, names: seq<Label>, name: Label) {
    exists i :: 0 <= i < |names| && fold(names[i]) == fold(name)
  }

  /** The labels kept from a typed list, first spelling of each class winning. */
  function Cleaned(blank: char -> bool, fold: string -> string, raw: seq<string>): (r: seq<Label>) {
    if raw == [] then []
    else
      var kept := Cleaned(blank, fold, raw[..|raw| - 1]);
      var text := Clean(blank, raw[|raw| - 1]);
      if text == "" || FoldIn(fold, kept, text) || |kept| >= MAX_SECTIONS_PER_GRADE then kept else kept + [text]
  }

  function Folds(fold: string -> string, names: seq<Label>): set<string> {
    set k | 0 <= k < |names| :: fold(names[k])
  }

  lemma SeenMore(fold: string -> string, names: seq<Label>, name: Label)
    ensures Folds(fold, names + [name]) == Folds(fold, names) + {fold(name)}
    ensures fold(name) in Folds(fold, names) <==> FoldIn(fold, names, name)
  {
    assert (names + [name])[|names|] == name;
    assert forall k :: 0 <= k < |names| ==> (names + [name])[k] == names[k];
  }

  /** One grade's share of the label normalisation. */
  method NormalizeLabels(blank: char -> bool, fold: string -> string, raw: seq<string>) returns (cleaned: seq<Label>)
    ensures cleaned == Cleaned(blank, fold, raw)
  {
    cleaned := [];
    var seen: set<string> := {};
    for i := 0 to |raw|
      invariant cleaned == Cleaned(blank, fold, raw[..i])
      invariant |cleaned| < MAX_SECTIONS_PER_GRADE
      invariant seen == Folds(fold, cleaned)
    {
      assert raw[..i + 1][..i] == raw[..i];
      var text := Clean(blank, raw[i]);
      assert fold(text) in seen <==> FoldIn(fold, cleaned, text);
      if text == "" || fold(text) in seen {
        continue;
      }
      seen := seen + {fold(text)};
      SeenMore(fold, cleaned, text);
      cleaned := cleaned + [text];
      if |cleaned| >= MAX_SECTIONS_PER_GRADE {
        CleanedFull(blank, fold, raw, i + 1);
        return;
      }
    }
    assert raw[..|raw|] == raw;
  }

  lemma {:induction false} CleanedFull(blank: char -> bool, fold: string -> string, raw: seq<string>, n: nat)
    requires n <= |raw| && |Cleaned(blank, fold, raw[..n])| >= MAX_SECTIONS_PER_GRADE
    ensures Cleaned(blank, fold, raw) == Cleaned(blank, fold, raw[..n])
    decreases |raw|
  {
    if n < |raw| {
      var p := raw[..|raw| - 1];
      assert p[..n] == raw[..n];
      CleanedFull(blank, fold, p, n);
    } else {
      assert raw[..n] == raw;
    }
  }

  ghost predicate StoredForm(blank: char -> bool, name: Label) {
    0 < |name| <= MAX_LABEL_LENGTH && !blank(name[0])
  }

  /** Stored labels are distinct even up to case, non-empty and bounded. */
  lemma {:induction false} CleanedLabels(blank: char -> bool, fold: string -> string, raw: seq<string>)
    ensures |Cleaned(blank, fold, raw)| <= MAX_SECTIONS_PER_GRADE
    ensures FoldsDistinct(fold, Cleaned(blank, fold, raw)) && Distinct(Cleaned(blank, fold, raw))
    ensures forall name :: name in Cleaned(blank, fold, raw) ==> StoredForm(blank, name)
  {
    if raw != [] {
      var last := |raw| - 1;
      CleanedLabels(blank, fold, raw[..last]);
      var kept := Cleaned(blank, fold, raw[..last]);
      assert Cleaned(blank, fold, raw) == kept || Cleaned(blank, fold, raw) == kept + [Clean(blank, raw[last])];
    }
  }

  /** Every stored label was typed. */
  lemma {:induction false} CleanedFrom(blank: char -> bool, fold: string -> string, raw: seq<string>, name: Label)
    requires name in Cleaned(blank, fold, raw)
    ensures exists s :: s in raw && name == Clean(blank, s)
  {
    var last := |raw| - 1;
    if name in Cleaned(blank, fold, raw[..last]) {
      CleanedFrom(blank, fold, raw[..last], name);
    } else {
      assert raw[last] in raw;
    }
  }

  lemma FoldStays(fold: string -> string, kept: seq<Label>, r: seq<Label>, name: Label)
    requires FoldIn(fold, kept, name) && kept <= r
    ensures FoldIn(fold, r, name)
  {
    var i :| 0 <= i < |kept| && fold(kept[i]) == fold(name);
    assert r[i] == kept[i];
  }

  /** Every class that was typed is stored, unless the list was already full. */
  lemma {:induction false} CleanedComplete(blank: char -> bool, fold: string -> string, raw: seq<string>, s: string)
    requires s in raw && Clean(blank, s) != "" && |Cleaned(blank, fold, raw)| < MAX_SECTIONS_PER_GRADE
    ensures FoldIn(fold, Cleaned(blank, fold, raw), Clean(blank, s))
  {
    var last := |raw| - 1;
    var kept, r := Cleaned(blank, fold, raw[..last]), Cleaned(blank, fold, raw);
    if s in raw[..last] {
      CleanedComplete(blank, fold, raw[..last], s);
      FoldStays(fold, kept, r, Clean(blank, s));
    } else if r != kept {
      assert r[|kept|] == Clean(blank, s);
    }
  }

  lemma {:induction false} CleanedAgain(blank: char -> bool, fold: string -> string, names: seq<Label>)
    requires FoldsDistinct(fold, names) && |names| <= MAX_SECTIONS_PER_GRADE
    requires forall k :: 0 <= k < |names| ==> Tidy(blank, names[k])
    ensures Cleaned(blank, fold, names) == names
  {
    if names != [] {
      var p := names[..|names| - 1];
      CleanedAgain(blank, fold, p);
      assert names == p + [names[|names| - 1]];
    }
  }

  /** Storing what is already stored changes nothing exactly when no label was cut right
      after a blank. Every edit of an account stores its sections again, so a class cut
      there is quietly renamed by the next edit. */
  lemma NormalizeTwice(blank: char -> bool, fold: string -> string, raw: seq<string>)
    ensures Cleaned(blank, fold, Cleaned(blank, fold, raw)) == Cleaned(blank, fold, raw)
       <==> forall name :: name in Cleaned(blank, fold, raw) ==> Tidy(blank, name)
  {
    var r := Cleaned(blank, fold, raw);
    CleanedLabels(blank, fold, raw);
    if forall name :: name in r ==> Tidy(blank, name) {
      CleanedAgain(blank, fold, r);
    }
    if Cleaned(blank, fold, r) == r {
      forall name | name in r ensures Tidy(blank, name) {
        CleanedFrom(blank, fold, r, name);
        var s :| s in r && name == Clean(blank, s);
        assert StoredForm(blank, s) && StoredForm(blank, name);
      }
    }
  }

  const FIFTEEN: string := "Class of Room B"

  /** A label cut to end in a blank is stored with it, and loses it when it is stored again. */
  lemma CutLabelChanges(cut: string)
    requires |cut| == MAX_LABEL_LENGTH && cut[..15] == FIFTEEN && cut[15] == ' '
    ensures var blank, fold := (c: char) => c == ' ', (s: string) => s;
      && Cleaned(blank, fold, [cut + "and more"]) == [cut]
      && Cleaned(blank, fold, [cut]) == [FIFTEEN]
  {
    var blank, fold := (c: char) => c == ' ', (s: string) => s;
    var typed := cut + "and more";
    assert typed[0] == 'C' && typed[|typed| - 1] == 'e' && FIFTEEN[0] == 'C' && FIFTEEN[14] == 'B';
    assert Strip(blank, typed) == typed && typed[..MAX_LABEL_LENGTH] == cut;
    assert Strip(blank, FIFTEEN) == FIFTEEN;
    assert cut[0] == 'C' && cut[..|cut| - 1] == FIFTEEN;
    assert Strip(blank, cut) == FIFTEEN;
    OneCleaned(blank, fold, typed);
    OneCleaned(blank, fold, cut);
  }

  lemma OneCleaned(blank: char -> bool, fold: string -> string, s: string)
    requires Clean(blank, s) != ""
    ensures Cleaned(blank, fold, [s]) == [Clean(blank, s)]
  {
    assert [s][..0] == [];
    assert Cleaned(blank, fold, [s][..0]) == [];
  }

  // ----- the classes of a grade -----

  function SectionsFor(sections: ClassLists, grade: int): (r: seq<Label>)
    ensures r != []
  {
    if Labels(sections, grade) == [] then [NO_SECTION] else Labels(sections, grade)
  }

  datatype Requested = NotGiven | Given(section: Label)

  datatype Resolved = Unknown | Section(section: Label)

  /** The class a request applies to: a named one of this grade, or the first. */
  function ResolveSection(sections: ClassLists, grade: int, requested: Requested): (r: Resolved)
    ensures r.Section? ==> r.section in SectionsFor(sections, grade)
    ensures r.Unknown? <==> requested.Given? && requested.section !in SectionsFor(sections, grade)
    ensures r.Section? && requested.Given? ==> r.section == requested.section
    ensures requested == NotGiven ==> r == Section(SectionsFor(sections, grade)[0])
  {
    var allowed := SectionsFor(sections, grade);
    match requested
    case NotGiven => Section(allowed[0])
    case Given(s) => if s in allowed then Section(s) else Unknown
  }

  // ----- re-keying the rows -----

  function MovedRow(moved: bool, r: Row, target: Label): Row {
    if moved then r.(section := target) else r
  }

  /** Whether a stored row is picked up and carried by one rename. */
  ghost predicate CarriesRow(g: Grades, s: Tables, teacher: nat, e: Move, r: Row) {
    r.teacher == teacher && Carries(g, s, teacher, e, r.lesson, r.section)
  }

  ghost function CountCarried(g: Grades, s: Tables, teacher: nat, e: Move, t: seq<Row>): nat {
    if t == [] then 0
    else CountCarried(g, s, teacher, e, t[..|t| - 1]) + (if CarriesRow(g, s, teacher, e, t[|t| - 1]) then 1 else 0)
  }

  /** The rows a rename carries: its teacher's, of a lesson of its grade that has nothing under the
      new label yet, under the old one. */
  ghost function CarriedRows(g: Grades, s: Tables, teacher: nat, e: Move, t: seq<Row>): set<nat> {
    set k: nat | k < |t| && t[k].teacher == teacher && t[k].section == e.source && t[k].lesson in g && g[t[k].lesson] == e.grade
                 && !Holds(s, teacher, t[k].lesson, e.target)
  }

  lemma OneMoreCarried(g: Grades, s: Tables, teacher: nat, e: Move, front: seq<Row>, r: Row)
    ensures CarriedRows(g, s, teacher, e, front + [r])
      == CarriedRows(g, s, teacher, e, front) + if CarriesRow(g, s, teacher, e, r) then {|front|} else {}
  {
  }

  lemma {:induction false} CarriedAreCounted(g: Grades, s: Tables, teacher: nat, e: Move, t: seq<Row>)
    ensures CountCarried(g, s, teacher, e, t) == |CarriedRows(g, s, teacher, e, t)|
  {
    if t != [] {
      var front, r := t[..|t| - 1], t[|t| - 1];
      CarriedAreCounted(g, s, teacher, e, front);
      OneMoreCarried(g, s, teacher, e, front, r);
      assert front + [r] == t;
    }
  }

  /** A database session over the three tables. Queries select by `stored`; assignments go
      to `live`, and reach `stored` only when the session is flushed. */
  class Records {
    const lessonGrade: Grades
    var stored: Tables
    var live: Tables

    constructor (lessonGrade: Grades, tables: Tables)
      ensures this.lessonGrade == lessonGrade && stored == tables && live == tables
    {
      this.lessonGrade := lessonGrade;
      stored := tables;
      live := tables;
    }

    /** The session holds the same rows as the database, up to labels. */
    ghost predicate Valid()
      reads this
    {
      forall m :: 0 <= m < MODELS ==> |live[m]| == |stored[m]|
    }

    method LessonsAlreadyKeyed(teacher: nat, section: Label, grade: int) returns (taken: set<nat>)
      ensures forall lesson :: lesson in taken <==> InGrade(lessonGrade, lesson, grade) && Holds(stored, teacher, lesson, section)
    {
      taken := {};
      for m := 0 to MODELS
        invariant forall lesson :: lesson in taken <==>
          InGrade(lessonGrade, lesson, grade)
          && exists n, j :: 0 <= n < m && 0 <= j < |stored[n]| && Under(stored[n][j], teacher, lesson, section)
      {
        for k := 0 to |stored[m]|
          invariant forall lesson :: lesson in taken <==>
            InGrade(lessonGrade, lesson, grade)
            && exists n, j :: ((0 <= n < m && 0 <= j < |stored[n]|) || (n == m && 0 <= j < k))
                              && Under(stored[n][j], teacher, lesson, section)
        {
          var row := stored[m][k];
          ghost var was := taken;
          if row.teacher == teacher && row.section == section && InGrade(lessonGrade, row.lesson, grade) {
            assert Under(stored[m][k], teacher, row.lesson, section);
            taken := taken + {row.lesson};
          }
        }
      }
    }

    /** One table's share of a rename. */
    method MoveTable(teacher: nat, e: Move, taken: set<nat>, m: nat) returns (moved: nat)
      requires Valid() && m < MODELS
      requires forall lesson :: lesson in taken <==> InGrade(lessonGrade, lesson, e.grade) && Holds(stored, teacher, lesson, e.target)
      modifies this`live
      ensures Valid()
      ensures forall n :: 0 <= n < MODELS && n != m ==> live[n] == old(live[n])
      ensures forall j :: 0 <= j < |stored[m]| ==>
        live[m][j] == MovedRow(CarriesRow(lessonGrade, stored, teacher, e, stored[m][j]), old(live[m][j]), e.target)
      ensures moved == CountCarried(lessonGrade, stored, teacher, e, stored[m])
    {
      moved := 0;
      for k := 0 to |stored[m]|
        invariant Valid()
        invariant forall n :: 0 <= n < MODELS && n != m ==> live[n] == old(live[n])
        invariant forall j :: 0 <= j < |stored[m]| ==>
          live[m][j] == MovedRow(j < k && CarriesRow(lessonGrade, stored, teacher, e, stored[m][j]), old(live[m][j]), e.target)
        invariant moved == CountCarried(lessonGrade, stored, teacher, e, stored[m][..k])
      {
        assert stored[m][..k + 1][..k] == stored[m][..k];
        var row := stored[m][k];
        assert CarriesRow(lessonGrade, stored, teacher, e, row)
          <==> row.teacher == teacher && row.section == e.source && InGrade(lessonGrade, row.lesson, e.grade) && row.lesson !in taken;
        if row.teacher == teacher && row.section == e.source && InGrade(lessonGrade, row.lesson, e.grade) {
          if row.lesson in taken {
            continue;
          }
          live := live[m := live[m][k := live[m][k].(section := e.target)]];
          moved := moved + 1;
        }
      }
      assert stored[m][..|stored[m]|] == stored[m];
    }

    /** Carry the rows of every lesson the new label holds nothing for; count them over the
        three tables. */
    method RenameSection(teacher: nat, grade: int, source: Label, target: Label) returns (moved: nat)
      requires Valid()
      modifies this`live
      ensures Valid()
      ensures forall m, k :: 0 <= m < MODELS && 0 <= k < |stored[m]| ==>
        live[m][k] == MovedRow(CarriesRow(lessonGrade, stored, teacher, Move(grade, source, target), stored[m][k]), old(live[m][k]), target)
      ensures moved == CountCarried(lessonGrade, stored, teacher, Move(grade, source, target), stored[0])
                     + CountCarried(lessonGrade, stored, teacher, Move(grade, source, target), stored[1])
                     + CountCarried(lessonGrade, stored, teacher, Move(grade, source, target), stored[2])
    {
      var e := Move(grade, source, target);
      if source == target || (source == "" && target == "") {
        forall m, k | 0 <= m < MODELS && 0 <= k < |stored[m]| ensures !CarriesRow(lessonGrade, stored, teacher, e, stored[m][k]) {
          if stored[m][k].teacher == teacher && stored[m][k].section == source {
            assert Under(stored[m][k], teacher, stored[m][k].lesson, target);
          }
        }
        CountNone(lessonGrade, stored, teacher, e, stored[0]);
        CountNone(lessonGrade, stored, teacher, e, stored[1]);
        CountNone(lessonGrade, stored, teacher, e, stored[2]);
        return 0;
      }
      var taken := LessonsAlreadyKeyed(teacher, target, grade);
      moved := 0;
      for m := 0 to MODELS
        invariant Valid()
        invariant forall n :: m <= n < MODELS ==> live[n] == old(live[n])
        invariant forall n, j :: 0 <= n < m && 0 <= j < |stored[n]| ==>
          live[n][j] == MovedRow(CarriesRow(lessonGrade, stored, teacher, e, stored[n][j]), old(live[n][j]), target)
        invariant moved == (if m > 0 then CountCarried(lessonGrade, stored, teacher, e, stored[0]) else 0)
                         + (if m > 1 then CountCarried(lessonGrade, stored, teacher, e, stored[1]) else 0)
                         + (if m > 2 then CountCarried(lessonGrade, stored, teacher, e, stored[2]) else 0)
      {
        var here := MoveTable(teacher, e, taken, m);
        moved := moved + here;
      }
    }

    /** Write the session out. Two progress rows for one lesson and class are refused. */
    method Flush() returns (written: bool)
      requires Valid()
      modifies this`stored
      ensures Valid()
      ensures written <==> UniqueProgress(live[PROGRESS])
      ensures stored == if written then live else old(stored)
    {
      written := true;
      for k := 0 to |live[PROGRESS]|
        invariant written <==> forall i, j :: 0 <= i < j < k && SameLesson(live[PROGRESS][i], live[PROGRESS][j]) ==>
                                 live[PROGRESS][i].section != live[PROGRESS][j].section
      {
        for i := 0 to k
          invariant written <==>
            && (forall a, b :: 0 <= a < b < k && SameLesson(live[PROGRESS][a], live[PROGRESS][b]) ==>
                                 live[PROGRESS][a].section != live[PROGRESS][b].section)
            && (forall a :: 0 <= a < i && SameLesson(live[PROGRESS][a], live[PROGRESS][k]) ==>
                                 live[PROGRESS][a].section != live[PROGRESS][k].section)
        {
          if SameLesson(live[PROGRESS][i], live[PROGRESS][k]) && live[PROGRESS][i].section == live[PROGRESS][k].section {
            written := false;
          }
        }
      }
      if written {
        stored := live;
      }
    }

    /** One pass of renames that select against the same stored picture. */
    method RunMoves(teacher: nat, es: seq<Move>)
      requires Valid() && live == stored
      modifies this`live
      ensures Valid()
      ensures live == Pass(lessonGrade, stored, teacher, es)
    {
      forall m | 0 <= m < MODELS ensures |Pass(lessonGrade, stored, teacher, es[..0])[m]| == |stored[m]| {
        PassAt(lessonGrade, stored, teacher, es[..0], m);
      }
      forall m, k | 0 <= m < MODELS && 0 <= k < |stored[m]| ensures Pass(lessonGrade, stored, teacher, es[..0])[m][k] == live[m][k] {
        PassAt(lessonGrade, stored, teacher, es[..0], m);
      }
      SameTables(live, Pass(lessonGrade, stored, teacher, es[..0]));
      for i := 0 to |es|
        invariant Valid()
        invariant live == Pass(lessonGrade, stored, teacher, es[..i])
      {
        ghost var was := live;
        var moved := RenameSection(teacher, es[i].grade, es[i].source, es[i].target);
        assert es[..i + 1][..i] == es[..i];
        ghost var next := Pass(lessonGrade, stored, teacher, es[..i + 1]);
        forall m | 0 <= m < MODELS ensures |next[m]| == |live[m]| && forall k :: 0 <= k < |live[m]| ==> live[m][k] == next[m][k] {
          PassAt(lessonGrade, stored, teacher, es[..i], m);
          PassAt(lessonGrade, stored, teacher, es[..i + 1], m);
        }
        SameTables(live, next);
      }
      assert es[..|es|] == es;
    }

    /** Plan the renames, then run both passes; a bad rename or a duplicate row refuses them all. */
    method ApplySectionRenames(teacher: nat, renames: seq<Move>, before: ClassLists, after: ClassLists)
      returns (r: Outcome<ClassLists>)
      requires Valid() && live == stored && UniqueProgress(stored[PROGRESS])
      modifies this
      ensures Valid() && live == stored && UniqueProgress(stored[PROGRESS])
      ensures match Plan(renames, before, after)
              case Rejected(error) => r == Err(error) && stored == old(stored)
              case Planned(moves, rewritten) =>
                if UniqueProgress(TwoPass(lessonGrade, old(stored), teacher, moves)[PROGRESS])
                then r == Ok(rewritten) && stored == TwoPass(lessonGrade, old(stored), teacher, moves)
                else r == Err(DuplicateProgress) && stored == old(stored)
    {
      var rewritten := before;
      var planned: seq<Move> := [];
      for i := 0 to |renames|
        invariant Plan(renames[..i], before, after) == Planned(planned, rewritten)
      {
        assert renames[..i + 1][..i] == renames[..i];
        var e := renames[i];
        if e.source == e.target {
          continue;
        }
        if e.target !in Labels(after, e.grade) {
          PlanStuck(renames, i + 1, before, after);
          return Err(TargetMissing(e));
        }
        if e.source !in Labels(rewritten, e.grade) {
          PlanStuck(renames, i + 1, before, after);
          return Err(SourceMissing(e));
        }
        planned := planned + [e];
        rewritten := rewritten[e.grade := Replace(rewritten[e.grade], e.source, e.target)];
      }
      assert renames[..|renames|] == renames;
      var start := stored;
      RunMoves(teacher, Stage(planned));
      StagedUnique(lessonGrade, stored, teacher, planned);
      var written := Flush();
      RunMoves(teacher, Land(planned));
      written := Flush();
      if !written {
        // The failed write rolls the whole request back.
        stored, live := start, start;
        return Err(DuplicateProgress);
      }
      return Ok(rewritten);
    }

    /** Let existing work follow each grade's first class. */
    method SyncProgressSections(teacher: nat, before: ClassLists, after: ClassLists, grades: set<int>) returns (ghost order: seq<int>)
      requires Valid() && live == stored
      modifies this`live
      ensures Valid()
      ensures forall grade :: grade in order <==> grade in before.Keys + after.Keys + grades
      ensures live == Adopt(lessonGrade, stored, teacher, before, after, order)
    {
      var tokens := Sets.Enumerate(before.Keys + after.Keys + grades);
      order := tokens;
      RunMoves(teacher, AdoptMoves(before, after, tokens));
    }

    /** The section part of an account edit: renames, the adopt step, then the commit. */
    method EditClasses(teacher: nat, renames: seq<Move>, before: ClassLists, after: ClassLists, grades: set<int>)
      returns (r: Outcome<ClassLists>, ghost order: seq<int>)
      requires Valid() && live == stored && UniqueProgress(stored[PROGRESS])
      modifies this
      ensures Valid() && live == stored && UniqueProgress(stored[PROGRESS])
      ensures r.Err? ==> stored == old(stored)
      ensures r.Ok? <==>
        && Plan(renames, before, after).Planned?
        && UniqueProgress(TwoPass(lessonGrade, old(stored), teacher, Plan(renames, before, after).moves)[PROGRESS])
      ensures r.Ok? ==>
        && (forall grade :: grade in order <==> grade in Plan(renames, before, after).rewritten.Keys + after.Keys + grades)
        && stored == Edited(lessonGrade, old(stored), teacher, Plan(renames, before, after).moves,
                            Plan(renames, before, after).rewritten, after, order)
    {
      order := [];
      r := ApplySectionRenames(teacher, renames, before, after);
      if r.Ok? {
        order := SyncProgressSections(teacher, r.value, after, grades);
        AdoptKeepsRooms(lessonGrade, stored, teacher, r.value, after, order);
        AdoptUnique(lessonGrade, stored, teacher, r.value, after, order);
        var written := Flush();
      }
    }
  }

  lemma {:induction false} CountNone(g: Grades, s: Tables, teacher: nat, e: Move, t: seq<Row>)
    requires forall k :: 0 <= k < |t| ==> !CarriesRow(g, s, teacher, e, t[k])
    ensures CountCarried(g, s, teacher, e, t) == 0
  {
    if t != [] {
      CountNone(g, s, teacher, e, t[..|t| - 1]);
    }
  }

  lemma {:induction false} PlanStuck(renames: seq<Move>, n: nat, before: ClassLists, after: ClassLists)
    requires n <= |renames| && Plan(renames[..n], before, after).Rejected?
    ensures Plan(renames, before, after) == Plan(renames[..n], before, after)
    decreases |renames|
  {
    if n < |renames| {
      assert renames[..|renames| - 1][..n] == renames[..n];
      PlanStuck(renames[..|renames| - 1], n, before, after);
    } else {
      assert renames[..n] == renames;
    }
  }

  lemma AdoptUnique(g: Grades, s: Tables, teacher: nat, before: ClassLists, after: ClassLists, order: seq<int>)
    requires UniqueProgress(s[PROGRESS])
    ensures UniqueProgress(Adopt(g, s, teacher, before, after, order)[PROGRESS])
  {
    var t := Adopt(g, s, teacher, before, after, order);
    AdoptKeepsRooms(g, s, teacher, before, after, order);
    forall k, j | 0 <= k < j < |t[PROGRESS]| && SameLesson(t[PROGRESS][k], t[PROGRESS][j])
      ensures t[PROGRESS][k].section != t[PROGRESS][j].section
    {
      assert SameLesson(s[PROGRESS][k], s[PROGRESS][j]);
    }
  }

  lemma StagedUnique(g: Grades, s: Tables, teacher: nat, moves: seq<Move>)
    requires UniqueProgress(s[PROGRESS])
    ensures UniqueProgress(Pass(g, s, teacher, Stage(moves))[PROGRESS])
  {
    var staged := Pass(g, s, teacher, Stage(moves));
    PassKeepsRows(g, s, teacher, Stage(moves));
    StageApart(g, s, teacher, moves);
    PassRooms(g, s, teacher, Stage(moves));
    forall k, j | 0 <= k < j < |staged[PROGRESS]| && SameLesson(staged[PROGRESS][k], staged[PROGRESS][j])
      ensures staged[PROGRESS][k].section != staged[PROGRESS][j].section
    {
      assert SameLesson(s[PROGRESS][k], s[PROGRESS][j]);
    }
  }
}
