/** Which lessons a teacher may open: the walk along each track, and the rule it computes. */
module LessonAccess {
  import opened Clock
  import opened SectionTables
  import opened SectionRenames
  import opened Sections
  import Sets

  datatype Status = NotStarted | InProgress | Completed

  datatype Count = Unset | Of(n: nat)

  datatype Progress = Progress(
    status: Status,
    percent: nat,
    lastOpened: Stamp,
    lastSlide: Count,
    slideTotal: Count,
    completedAt: Stamp,
    unlocked: bool)

  /** A progress row as the database creates it. */
  const FRESH: Progress := Progress(NotStarted, 0, Never, Unset, Unset, Never, false)

  /** `language` is opaque; a lesson without one shares the value that stands for none. */
  datatype Lesson = Lesson(id: nat, grade: int, language: nat, year: int)

  datatype Key = Key(lesson: nat, section: Label)

  datatype TrackKey = TrackKey(grade: int, language: nat, year: int, section: Label)

  datatype Access = Available | Done | Waiting(at: int) | Locked

  type Rows = map<Key, Progress>

  function TrackOf(l: Lesson, section: Label): TrackKey {
    TrackKey(l.grade, l.language, l.year, section)
  }

  // ----- one lesson's place in its track -----

  predicate IsCompleted(rows: Rows, key: Key) {
    key in rows && rows[key].status == Completed
  }

  predicate IsUnlocked(rows: Rows, key: Key) {
    key in rows && rows[key].unlocked
  }

  function CompletedAt(rows: Rows, key: Key): Stamp {
    if key in rows then rows[key].completedAt else Never
  }

  /** The wait that starts with a completion is over. A completion without a stamp has none. */
  predicate WaitOver(stamp: Stamp, now: int, wait: nat) {
    stamp == Never || now >= stamp.t + wait
  }

  /** A lesson before position `i` of the track is unfinished, whether or not it is unlocked. */
  predicate Behind(track: seq<Lesson>, section: Label, rows: Rows, i: nat)
    requires i <= |track|
  {
    exists j :: 0 <= j < i && !IsCompleted(rows, Key(track[j].id, section))
  }

  /** What a lesson's state is: finished lessons are closed and unlocked ones open; of the
      rest only the first is within reach, and only the lesson right before it can make it
      wait. */
  function AccessAt(track: seq<Lesson>, section: Label, rows: Rows, i: nat, now: int, wait: nat): Access
    requires i < |track|
  {
    if IsUnlocked(rows, Key(track[i].id, section)) then Available else RuleAt(track, section, rows, i, now, wait)
  }

  /** The same for a lesson that is not unlocked. */
  function RuleAt(track: seq<Lesson>, section: Label, rows: Rows, i: nat, now: int, wait: nat): Access
    requires i < |track|
  {
    if IsCompleted(rows, Key(track[i].id, section)) then Done
    else if Behind(track, section, rows, i) then Locked
    else if i == 0 then Available
    else
      var stamp := CompletedAt(rows, Key(track[i - 1].id, section));
      if WaitOver(stamp, now, wait) then Available else Waiting(stamp.t + wait)
  }

  // ----- the walk -----

  datatype Gate = Gate(open: bool, pending: Stamp)

  /** The gate for the lesson after a finished one: open, shut, or shut until the wait is over. */
  function GateAfterFinished(stamp: Stamp, now: int, wait: nat, blocked: bool): Gate {
    if blocked then Gate(false, Never)
    else if WaitOver(stamp, now, wait) then Gate(true, Never)
    else Gate(false, At(stamp.t + wait))
  }

  predicate DistinctLessons(track: seq<Lesson>) {
    forall i, j :: 0 <= i < j < |track| ==> track[i].id != track[j].id
  }

  /** The gate as it stands before lesson `i`: shut for good behind an unfinished lesson,
      otherwise set by the lesson just passed. */
  predicate GateBefore(track: seq<Lesson>, section: Label, rows: Rows, i: nat, now: int, wait: nat, gate: Gate, blocked: bool)
    requires i <= |track|
  {
    && blocked == Behind(track, section, rows, i)
    && gate == if i == 0 then Gate(true, Never)
               else GateAfterFinished(CompletedAt(rows, Key(track[i - 1].id, section)), now, wait, blocked)
  }

  /** What the walk enters for a lesson. */
  function Entered(unlocked: bool, completed: bool, gate: Gate): Access {
    if completed && !unlocked then Done
    else if unlocked || gate.open then Available
    else if gate.pending != Never then Waiting(gate.pending.t)
    else Locked
  }

  lemma GateDecides(track: seq<Lesson>, section: Label, rows: Rows, i: nat, now: int, wait: nat, gate: Gate, blocked: bool)
    requires i < |track| && GateBefore(track, section, rows, i, now, wait, gate, blocked)
    ensures Entered(IsUnlocked(rows, Key(track[i].id, section)), IsCompleted(rows, Key(track[i].id, section)), gate)
         == AccessAt(track, section, rows, i, now, wait)
  {
  }

  lemma BehindNext(track: seq<Lesson>, section: Label, rows: Rows, i: nat)
    requires i < |track|
    ensures Behind(track, section, rows, i + 1) <==> Behind(track, section, rows, i) || !IsCompleted(rows, Key(track[i].id, section))
  {
  }

  /** `start` with the first `n` lessons of a track entered. */
  function Walked(track: seq<Lesson>, section: Label, rows: Rows, now: int, wait: nat, n: nat, start: map<Key, Access>): map<Key, Access>
    requires n <= |track|
  {
    if n == 0 then start
    else Walked(track, section, rows, now, wait, n - 1, start)[Key(track[n - 1].id, section) := AccessAt(track, section, rows, n - 1, now, wait)]
  }

  /** One pass along a track in teaching order, carrying the gate. */
  method WalkTrack(track: seq<Lesson>, section: Label, rows: Rows, now: int, wait: nat, start: map<Key, Access>)
    returns (out: map<Key, Access>)
    ensures out == Walked(track, section, rows, now, wait, |track|, start)
  {
    out := start;
    var gate := Gate(true, Never);
    var blocked := false;
    for i := 0 to |track|
      invariant GateBefore(track, section, rows, i, now, wait, gate, blocked)
      invariant out == Walked(track, section, rows, now, wait, i, start)
    {
      GateDecides(track, section, rows, i, now, wait, gate, blocked);
      BehindNext(track, section, rows, i);
      var key := Key(track[i].id, section);
      var unlocked := IsUnlocked(rows, key);
      var completed := IsCompleted(rows, key);
      if completed && !unlocked {
        out := out[key := Done];
        gate := GateAfterFinished(CompletedAt(rows, key), now, wait, blocked);
        continue;
      }
      if unlocked || gate.open {
        out := out[key := Available];
      } else if gate.pending != Never {
        out := out[key := Waiting(gate.pending.t)];
      } else {
        out := out[key := Locked];
      }
      if completed {
        gate := GateAfterFinished(CompletedAt(rows, key), now, wait, blocked);
      } else {
        gate := Gate(false, Never);
        blocked := true;
      }
    }
  }

  lemma {:induction false} WalkedKeys(track: seq<Lesson>, section: Label, rows: Rows, now: int, wait: nat, n: nat, start: map<Key, Access>, key: Key)
    requires n <= |track|
    ensures key in Walked(track, section, rows, now, wait, n, start) <==> key in start || exists i :: 0 <= i < n && key == Key(track[i].id, section)
  {
    if n > 0 {
      WalkedKeys(track, section, rows, now, wait, n - 1, start, key);
    }
  }

  lemma {:induction false} WalkedPast(track: seq<Lesson>, section: Label, rows: Rows, now: int, wait: nat, n: nat, start: map<Key, Access>, key: Key)
    requires n <= |track| && key in start
    requires forall i :: 0 <= i < n ==> track[i].id != key.lesson || section != key.section
    ensures key in Walked(track, section, rows, now, wait, n, start)
    ensures Walked(track, section, rows, now, wait, n, start)[key] == start[key]
  {
    if n > 0 {
      WalkedPast(track, section, rows, now, wait, n - 1, start, key);
    }
  }

  lemma {:induction false} WalkedTo(track: seq<Lesson>, section: Label, rows: Rows, now: int, wait: nat, n: nat, start: map<Key, Access>, i: nat)
    requires i < n <= |track| && DistinctLessons(track)
    ensures Key(track[i].id, section) in Walked(track, section, rows, now, wait, n, start)
    ensures Walked(track, section, rows, now, wait, n, start)[Key(track[i].id, section)] == AccessAt(track, section, rows, i, now, wait)
  {
    if i < n - 1 {
      WalkedTo(track, section, rows, now, wait, n - 1, start, i);
    }
  }

  // ----- tracks out of the assigned lessons -----

  /** A teacher's lessons in teaching order, and the classes they are taught to. */
  datatype Desk = Desk(lessons: seq<Lesson>, sections: ClassLists)

  predicate ValidDesk(d: Desk) {
    && DistinctLessons(d.lessons)
    && forall grade :: grade in d.sections ==> Distinct(d.sections[grade])
  }

  predicate InTrack(d: Desk, l: Lesson, k: TrackKey) {
    TrackOf(l, k.section) == k && k.section in SectionsFor(d.sections, l.grade)
  }

  /** The lessons of one track, in teaching order. */
  function Track(d: Desk, lessons: seq<Lesson>, k: TrackKey): (r: seq<Lesson>)
    ensures forall l :: l in r <==> l in lessons && InTrack(d, l, k)
  {
    if lessons == [] then []
    else
      var r := Track(d, lessons[..|lessons| - 1], k);
      if InTrack(d, lessons[|lessons| - 1], k) then r + [lessons[|lessons| - 1]] else r
  }

  /** Where a lesson stands in the track it is taught in to one class. */
  function Position(d: Desk, n: nat, section: Label): (i: nat)
    requires n < |d.lessons| && section in SectionsFor(d.sections, d.lessons[n].grade)
    ensures var t := Track(d, d.lessons, TrackOf(d.lessons[n], section)); i < |t| && t[i] == d.lessons[n]
  {
    TrackPosition(d, d.lessons, n, section);
    |Track(d, d.lessons[..n], TrackOf(d.lessons[n], section))|
  }

  lemma {:induction false} TrackPosition(d: Desk, lessons: seq<Lesson>, n: nat, section: Label)
    requires n < |lessons| && section in SectionsFor(d.sections, lessons[n].grade)
    ensures var k := TrackOf(lessons[n], section);
            var i := |Track(d, lessons[..n], k)|;
            i < |Track(d, lessons, k)| && Track(d, lessons, k)[i] == lessons[n]
  {
    var p := lessons[..|lessons| - 1];
    if n < |p| {
      assert p[..n] == lessons[..n];
      TrackPosition(d, p, n, section);
    }
  }

  lemma {:induction false} TrackDistinct(d: Desk, lessons: seq<Lesson>, k: TrackKey)
    requires DistinctLessons(lessons)
    ensures DistinctLessons(Track(d, lessons, k))
  {
    if lessons != [] {
      var p := lessons[..|lessons| - 1];
      TrackDistinct(d, p, k);
      forall l | l in Track(d, p, k) ensures l.id != lessons[|lessons| - 1].id {
        assert l in p;
      }
    }
  }

  /** The access of one lesson in one class. */
  function AccessOf(d: Desk, rows: Rows, n: nat, section: Label, now: int, wait: nat): Access
    requires n < |d.lessons| && section in SectionsFor(d.sections, d.lessons[n].grade)
  {
    AccessAt(Track(d, d.lessons, TrackOf(d.lessons[n], section)), section, rows, Position(d, n, section), now, wait)
  }

  ghost predicate Taught(d: Desk, key: Key) {
    exists n :: 0 <= n < |d.lessons| && d.lessons[n].id == key.lesson && key.section in SectionsFor(d.sections, d.lessons[n].grade)
  }

  /** `out` has the access of every lesson of a track. */
  predicate Covers(d: Desk, rows: Rows, now: int, wait: nat, k: TrackKey, out: map<Key, Access>) {
    var track := Track(d, d.lessons, k);
    forall p :: 0 <= p < |track| ==>
      Key(track[p].id, k.section) in out && out[Key(track[p].id, k.section)] == AccessAt(track, k.section, rows, p, now, wait)
  }

  /** Walking one track enters that track and disturbs no other. */
  lemma WalkCovers(d: Desk, rows: Rows, now: int, wait: nat, k: TrackKey, start: map<Key, Access>)
    requires ValidDesk(d)
    ensures var track := Track(d, d.lessons, k);
            var out := Walked(track, k.section, rows, now, wait, |track|, start);
            Covers(d, rows, now, wait, k, out) && forall j :: Covers(d, rows, now, wait, j, start) ==> Covers(d, rows, now, wait, j, out)
  {
    var track := Track(d, d.lessons, k);
    var out := Walked(track, k.section, rows, now, wait, |track|, start);
    TrackDistinct(d, d.lessons, k);
    forall p | 0 <= p < |track|
      ensures Key(track[p].id, k.section) in out && out[Key(track[p].id, k.section)] == AccessAt(track, k.section, rows, p, now, wait)
    {
      WalkedTo(track, k.section, rows, now, wait, |track|, start, p);
    }
    forall j | Covers(d, rows, now, wait, j, start) && j != k ensures Covers(d, rows, now, wait, j, out) {
      var other := Track(d, d.lessons, j);
      forall p | 0 <= p < |other|
        ensures Key(other[p].id, j.section) in out && out[Key(other[p].id, j.section)] == AccessAt(other, j.section, rows, p, now, wait)
      {
        forall q | 0 <= q < |track| ensures track[q].id != other[p].id || k.section != j.section {
          if track[q].id == other[p].id && k.section == j.section {
            OneTrackPerKey(d, j, k, p, q);
          }
        }
        WalkedPast(track, k.section, rows, now, wait, |track|, start, Key(other[p].id, j.section));
      }
    }
  }

  lemma WalkTaught(d: Desk, rows: Rows, now: int, wait: nat, k: TrackKey, start: map<Key, Access>)
    requires forall key :: key in start ==> Taught(d, key)
    ensures forall key :: key in Walked(Track(d, d.lessons, k), k.section, rows, now, wait, |Track(d, d.lessons, k)|, start) ==> Taught(d, key)
  {
    var track := Track(d, d.lessons, k);
    forall key | key in Walked(track, k.section, rows, now, wait, |track|, start) ensures Taught(d, key) {
      WalkedKeys(track, k.section, rows, now, wait, |track|, start, key);
      if i :| 0 <= i < |track| && key == Key(track[i].id, k.section) {
        assert track[i] in track;
        var n :| 0 <= n < |d.lessons| && d.lessons[n] == track[i];
      }
    }
  }

  /** A track as it has been collected so far. */
  function Collected(tracks: map<TrackKey, seq<Lesson>>, k: TrackKey): seq<Lesson> {
    if k in tracks then tracks[k] else []
  }

  /** One lesson's share of a track, for some of the classes it is taught to. */
  function ShareOf(l: Lesson, k: TrackKey, classes: seq<Label>): seq<Lesson> {
    if TrackOf(l, k.section) == k && k.section in classes then [l] else []
  }

  lemma OneMoreClass(l: Lesson, classes: seq<Label>, name: Label)
    requires name !in classes
    ensures forall k :: ShareOf(l, k, classes + [name]) == if k == TrackOf(l, name) then [l] else ShareOf(l, k, classes)
    ensures ShareOf(l, TrackOf(l, name), classes) == []
  {
  }

  /** Append one lesson to the track of each class it is taught to. */
  method AddLesson(d: Desk, tracks: map<TrackKey, seq<Lesson>>, l: Lesson) returns (r: map<TrackKey, seq<Lesson>>)
    requires ValidDesk(d)
    ensures forall k :: Collected(r, k) == Collected(tracks, k) + if InTrack(d, l, k) then [l] else []
  {
    r := tracks;
    var named := SectionsFor(d.sections, l.grade);
    assert Distinct(named);
    for i := 0 to |named|
      invariant forall k :: Collected(r, k) == Collected(tracks, k) + ShareOf(l, k, named[..i])
    {
      var k := TrackOf(l, named[i]);
      assert named[i] !in named[..i];
      assert named[..i + 1] == named[..i] + [named[i]];
      OneMoreClass(l, named[..i], named[i]);
      r := r[k := Collected(r, k) + [l]];
    }
    assert named[..|named|] == named;
    assert forall k :: ShareOf(l, k, named) == if InTrack(d, l, k) then [l] else [];
  }

  /** The tracks of the assigned lessons, each lesson once per class it is taught to. */
  method GroupTracks(d: Desk) returns (tracks: map<TrackKey, seq<Lesson>>)
    requires ValidDesk(d)
    ensures forall k :: Collected(tracks, k) == Track(d, d.lessons, k)
  {
    tracks := map[];
    for n := 0 to |d.lessons|
      invariant forall k :: Collected(tracks, k) == Track(d, d.lessons[..n], k)
    {
      assert d.lessons[..n + 1][..n] == d.lessons[..n];
      ghost var shorter := tracks;
      tracks := AddLesson(d, tracks, d.lessons[n]);
      forall k ensures Collected(tracks, k) == Track(d, d.lessons[..n + 1], k) {
        assert Collected(shorter, k) == Track(d, d.lessons[..n], k);
      }
    }
    assert d.lessons[..|d.lessons|] == d.lessons;
  }

  /** `out` has the access of every lesson of the first tracks, and of nothing that is not taught. */
  ghost predicate CoversTo(d: Desk, rows: Rows, now: int, wait: nat, keys: seq<TrackKey>, i: nat, out: map<Key, Access>)
    requires i <= |keys|
  {
    && (forall key :: key in out ==> Taught(d, key))
    && (forall j :: 0 <= j < i ==> Covers(d, rows, now, wait, keys[j], out))
  }

  lemma CoverNext(d: Desk, rows: Rows, now: int, wait: nat, keys: seq<TrackKey>, i: nat, out: map<Key, Access>)
    requires ValidDesk(d) && i < |keys| && CoversTo(d, rows, now, wait, keys, i, out)
    ensures var track := Track(d, d.lessons, keys[i]);
      CoversTo(d, rows, now, wait, keys, i + 1, Walked(track, keys[i].section, rows, now, wait, |track|, out))
  {
    WalkCovers(d, rows, now, wait, keys[i], out);
    WalkTaught(d, rows, now, wait, keys[i], out);
  }

  /** Every track walked once, into one map. */
  method WalkTracks(d: Desk, rows: Rows, now: int, wait: nat, tracks: map<TrackKey, seq<Lesson>>) returns (out: map<Key, Access>)
    requires ValidDesk(d)
    requires forall k :: k in tracks ==> tracks[k] == Track(d, d.lessons, k)
    ensures forall key :: key in out ==> Taught(d, key)
    ensures forall k :: k in tracks ==> Covers(d, rows, now, wait, k, out)
  {
    out := map[];
    var keys := Sets.Enumerate(tracks.Keys);
    for i := 0 to |keys|
      invariant CoversTo(d, rows, now, wait, keys, i, out)
    {
      assert keys[i] in tracks.Keys;
      CoverNext(d, rows, now, wait, keys, i, out);
      out := WalkTrack(tracks[keys[i]], keys[i].section, rows, now, wait, out);
    }
    forall k | k in tracks ensures Covers(d, rows, now, wait, k, out) {
      assert k in keys;
    }
  }

  lemma CoversAccess(d: Desk, rows: Rows, now: int, wait: nat, out: map<Key, Access>, n: nat, s: Label)
    requires n < |d.lessons| && s in SectionsFor(d.sections, d.lessons[n].grade)
    requires Covers(d, rows, now, wait, TrackOf(d.lessons[n], s), out)
    ensures Key(d.lessons[n].id, s) in out && out[Key(d.lessons[n].id, s)] == AccessOf(d, rows, n, s, now, wait)
  {
    var p := Position(d, n, s);
    assert Track(d, d.lessons, TrackOf(d.lessons[n], s))[p] == d.lessons[n];
  }

  /** Access for every lesson and class the teacher has. */
  method ComputeAccess(d: Desk, rows: Rows, now: int, wait: nat) returns (out: map<Key, Access>)
    requires ValidDesk(d)
    ensures forall key :: key in out <==> Taught(d, key)
    ensures forall n, s :: 0 <= n < |d.lessons| && s in SectionsFor(d.sections, d.lessons[n].grade) ==>
      Key(d.lessons[n].id, s) in out && out[Key(d.lessons[n].id, s)] == AccessOf(d, rows, n, s, now, wait)
  {
    var tracks := GroupTracks(d);
    forall k | k in tracks ensures tracks[k] == Track(d, d.lessons, k) {
      assert Collected(tracks, k) == Track(d, d.lessons, k);
    }
    out := WalkTracks(d, rows, now, wait, tracks);
    forall n, s | 0 <= n < |d.lessons| && s in SectionsFor(d.sections, d.lessons[n].grade)
      ensures Key(d.lessons[n].id, s) in out && out[Key(d.lessons[n].id, s)] == AccessOf(d, rows, n, s, now, wait)
    {
      var k := TrackOf(d.lessons[n], s);
      assert d.lessons[n] in Track(d, d.lessons, k);
      assert Collected(tracks, k) != [];
      CoversAccess(d, rows, now, wait, out, n, s);
    }
  }

  /** Two tracks share a lesson and class only if they are one, and then at one place. */
  lemma OneTrackPerKey(d: Desk, j: TrackKey, k: TrackKey, p: nat, q: nat)
    requires ValidDesk(d)
    requires p < |Track(d, d.lessons, j)| && q < |Track(d, d.lessons, k)|
    requires Key(Track(d, d.lessons, j)[p].id, j.section) == Key(Track(d, d.lessons, k)[q].id, k.section)
    ensures j == k && p == q
  {
    var a, b := Track(d, d.lessons, j)[p], Track(d, d.lessons, k)[q];
    assert a in Track(d, d.lessons, j) && b in Track(d, d.lessons, k);
    assert a == b;
    TrackDistinct(d, d.lessons, j);
  }
}
