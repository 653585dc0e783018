/** One teacher's progress rows and access requests, and everything that writes them. */
module ProgressBook {
  import opened Clock
  import opened SectionTables
  import opened SectionRenames
  import opened Sections
  import Sets
  import opened LessonAccess
  import opened AccessRules

  datatype Payload = Payload(slide: Count, total: Count, complete: bool, section: Requested)

  datatype RequestStatus = Pending | Granted | Denied

  datatype Request = Request(id: nat, key: Key, status: RequestStatus)

  /** The rows a teacher's lessons are recorded in; `slides` is the shared slide count. */
  datatype Book = Book(rows: Rows, slides: map<nat, nat>, requests: seq<Request>)

  datatype Refusal = NotFound | NotAssigned | UnknownSection | NotYet | NothingReported | AlreadyOpen | AlreadyResolved

  datatype Reply<T> = Saved(value: T) | Refused(reason: Refusal)

  // ----- finding the lesson and the class -----

  /** The last of some items that matches, or -1. */
  function LastIndex<T>(items: seq<T>, matches: T -> bool): (i: int)
    ensures -1 <= i < |items|
    ensures i >= 0 ==> matches(items[i])
    ensures forall j :: i < j < |items| ==> !matches(items[j])
  {
    if items == [] then -1
    else if matches(items[|items| - 1]) then |items| - 1
    else LastIndex(items[..|items| - 1], matches)
  }

  function IndexOf(lessons: seq<Lesson>, id: nat): (i: int)
    ensures -1 <= i < |lessons|
    ensures i >= 0 ==> lessons[i].id == id
    ensures i < 0 ==> forall j :: 0 <= j < |lessons| ==> lessons[j].id != id
  {
    LastIndex(lessons, (l: Lesson) => l.id == id)
  }

  datatype Target = Found(n: nat, section: Label) | Missing(reason: Refusal)

  /** The assigned lesson and the class a request is about, or why there is none. */
  function Locate(d: Desk, known: set<nat>, lesson: nat, section: Requested): (t: Target)
    ensures t.Found? ==> t.n < |d.lessons| && d.lessons[t.n].id == lesson && t.section in SectionsFor(d.sections, d.lessons[t.n].grade)
    ensures t.Found? && section.Given? ==> t.section == section.section
    ensures t.Found? && section.NotGiven? ==> t.section == SectionsFor(d.sections, d.lessons[t.n].grade)[0]
    ensures t == Missing(UnknownSection) ==> section.Given? && lesson in known
  {
    if lesson !in known then Missing(NotFound)
    else
      var n := IndexOf(d.lessons, lesson);
      if n < 0 then Missing(NotAssigned)
      else match ResolveSection(d.sections, d.lessons[n].grade, section)
           case Unknown => Missing(UnknownSection)
           case Section(s) => Found(n, s)
  }

  // ----- recording progress -----

  function TotalSlides(total: Count, stored: Count): nat {
    if total.Of? && total.n > 0 then total.n
    else if stored.Of? then stored.n
    else 0
  }

  /** Round to the nearest integer, halves to the even one. */
  function RoundHalfEven(x: nat, y: nat): nat
    requires y > 0
  {
    var q, r := x / y, x % y;
    if 2 * r < y then q else if 2 * r > y then q + 1 else if q % 2 == 0 then q else q + 1
  }

  /** The percentage a report stands for; only the explicit flag reaches 100. */
  function ResolvePercent(payload: Payload, total: nat): (p: nat)
    requires payload.complete || payload.slide.Of?
    ensures p == 100 <==> payload.complete
    ensures p <= 100
  {
    if payload.complete then 100
    else if total == 0 then 0
    else
      var r := RoundHalfEven(payload.slide.n * 100, total);
      if r < 99 then r else 99
  }

  function StatusOf(percent: nat): Status {
    if percent >= 100 then Completed else if percent > 0 then InProgress else NotStarted
  }

  function Written(p: Progress, payload: Payload, total: nat, now: int): Progress
    requires payload.complete || payload.slide.Of?
  {
    var percent := ResolvePercent(payload, total);
    Progress(
      StatusOf(percent),
      percent,
      At(now),
      if payload.complete then (if total > 0 then Of(total) else p.lastSlide) else payload.slide,
      if total > 0 then Of(total) else p.slideTotal,
      if percent >= 100 then (if p.completedAt == Never then At(now) else p.completedAt) else Never,
      if percent >= 100 then false else p.unlocked)
  }

  function StoredSlides(b: Book, lesson: nat): Count {
    if lesson in b.slides then Of(b.slides[lesson]) else Unset
  }

  function Update(d: Desk, known: set<nat>, b: Book, lesson: nat, payload: Payload, now: int, wait: nat): (Reply<Progress>, Book) {
    match Locate(d, known, lesson, payload.section)
    case Missing(reason) => (Refused(reason), b)
    case Found(n, section) =>
      var key := Key(lesson, section);
      match AccessOf(d, b.rows, n, section, now, wait)
      case Locked => (Refused(NotYet), b)
      case Waiting(_) => (Refused(NotYet), b)
      case Done => (Saved(RowAt(b.rows, key)), b)
      case Available =>
        if !payload.complete && !payload.slide.Of? then (Refused(NothingReported), b)
        else
          var total := TotalSlides(payload.total, StoredSlides(b, lesson));
          var slides := if payload.total.Of? && payload.total.n > 0 then b.slides[lesson := payload.total.n] else b.slides;
          var row := Written(RowAt(b.rows, key), payload, total, now);
          (Saved(row), b.(rows := b.rows[key := row], slides := slides))
  }

  // ----- requests and overrides -----

  predicate IsPending(r: Request, key: Key) {
    r.key == key && r.status == Pending
  }

  predicate HasPending(requests: seq<Request>, key: Key) {
    exists i :: 0 <= i < |requests| && IsPending(requests[i], key)
  }

  /** Ask for a lesson to be opened; a pending request for the same class is reused. */
  function Ask(d: Desk, known: set<nat>, b: Book, id: nat, lesson: nat, section: Requested, now: int, wait: nat): (Reply<Key>, Book) {
    match Locate(d, known, lesson, section)
    case Missing(reason) => (Refused(reason), b)
    case Found(n, s) =>
      if AccessOf(d, b.rows, n, s, now, wait) == Available then (Refused(AlreadyOpen), b)
      else if HasPending(b.requests, Key(lesson, s)) then (Saved(Key(lesson, s)), b)
      else (Saved(Key(lesson, s)), b.(requests := b.requests + [Request(id, Key(lesson, s), Pending)]))
  }

  function FindRequest(requests: seq<Request>, id: nat): (i: int)
    ensures -1 <= i < |requests|
    ensures i >= 0 ==> requests[i].id == id
    ensures forall j :: i < j < |requests| ==> requests[j].id != id
  {
    LastIndex(requests, (r: Request) => r.id == id)
  }

  /** Grant or deny one pending request. */
  function Resolve(b: Book, id: nat, granted: bool): (Reply<Key>, Book) {
    var i := FindRequest(b.requests, id);
    if i < 0 then (Refused(NotFound), b)
    else if b.requests[i].status != Pending then (Refused(AlreadyResolved), b)
    else
      var key := b.requests[i].key;
      (Saved(key), b.(
        rows := if granted then SetUnlocked(b.rows, key, true) else b.rows,
        requests := b.requests[i := b.requests[i].(status := if granted then Granted else Denied)]))
  }

  function GrantAll(requests: seq<Request>, key: Key): (r: seq<Request>)
    ensures |r| == |requests|
  {
    seq(|requests|, i requires 0 <= i < |requests| =>
      if IsPending(requests[i], key) then requests[i].(status := Granted) else requests[i])
  }

  /** Set or clear one class's override; setting it settles that class's pending requests. */
  function Override(d: Desk, known: set<nat>, b: Book, lesson: nat, section: Requested, unlocked: bool): (Reply<Key>, Book) {
    match Locate(d, known, lesson, section)
    case Missing(reason) => (Refused(reason), b)
    case Found(n, s) =>
      (Saved(Key(lesson, s)), b.(
        rows := SetUnlocked(b.rows, Key(lesson, s), unlocked),
        requests := if unlocked then GrantAll(b.requests, Key(lesson, s)) else b.requests))
  }

  // ----- resetting -----

  datatype Scope = Scope(lesson: Count, section: Requested)

  predicate InScope(scope: Scope, key: Key) {
    && (scope.lesson.Of? ==> key.lesson == scope.lesson.n)
    && (scope.section.Given? ==> key.section == scope.section.section)
  }

  function Reset(rows: Rows, scope: Scope): Rows {
    map key | key in rows :: if InScope(scope, key) then FRESH else rows[key]
  }

  datatype ResetResult = ResetResult(lessons: nat, completed: nat, started: nat, overrides: nat, classes: nat)

  datatype Tag = WasCompleted | WasStarted | WasUnlocked

  predicate Tagged(p: Progress, tag: Tag) {
    match tag
    case WasCompleted => p.status == Completed
    case WasStarted => p.status != Completed && (p.status != NotStarted || p.percent != 0)
    case WasUnlocked => p.unlocked
  }

  /** How many of some rows carry a tag. */
  function Tally(rows: Rows, keys: set<Key>, tag: Tag): nat
    requires keys <= rows.Keys
  {
    |set key | key in keys && Tagged(rows[key], tag)|
  }

  lemma TallyAdd(rows: Rows, keys: set<Key>, key: Key, tag: Tag)
    requires keys <= rows.Keys && key in rows && key !in keys
    ensures Tally(rows, keys + {key}, tag) == Tally(rows, keys, tag) + if Tagged(rows[key], tag) then 1 else 0
  {
    var before := set k | k in keys && Tagged(rows[k], tag);
    var after := set k | k in keys + {key} && Tagged(rows[k], tag);
    assert after == if Tagged(rows[key], tag) then before + {key} else before;
  }

  function Scoped(rows: Rows, scope: Scope): (r: set<Key>)
    ensures r <= rows.Keys
  {
    set key | key in rows && InScope(scope, key)
  }

  /** What a reset reports, as counts of the rows it covered and the classes they are in. */
  function ResetCounts(rows: Rows, scope: Scope): ResetResult {
    var keys := Scoped(rows, scope);
    ResetResult(
      |keys|, Tally(rows, keys, WasCompleted), Tally(rows, keys, WasStarted), Tally(rows, keys, WasUnlocked),
      |set key | key in keys :: key.section|)
  }

  /** One teacher's rows, as the routes change them. */
  class Register {
    const desk: Desk
    const known: set<nat>
    const wait: nat
    var rows: Rows
    var slides: map<nat, nat>
    var requests: seq<Request>

    constructor (desk: Desk, known: set<nat>, wait: nat, b: Book)
      ensures this.desk == desk && this.known == known && this.wait == wait && Current() == b
    {
      this.desk, this.known, this.wait := desk, known, wait;
      rows, slides, requests := b.rows, b.slides, b.requests;
    }

    function Current(): Book
      reads this
    {
      Book(rows, slides, requests)
    }

    /** The access of one assigned lesson in one class. */
    method AccessStatus(n: nat, section: Label, now: int) returns (access: Access)
      requires ValidDesk(desk) && n < |desk.lessons| && section in SectionsFor(desk.sections, desk.lessons[n].grade)
      ensures access == AccessOf(desk, rows, n, section, now, wait)
    {
      var full := ComputeAccess(desk, rows, now, wait);
      access := full[Key(desk.lessons[n].id, section)];
    }

    /** One report on a lesson: a slide number, or that it is finished. */
    method UpdateProgress(lesson: nat, payload: Payload, now: int) returns (reply: Reply<Progress>)
      requires ValidDesk(desk)
      modifies this`rows, this`slides
      ensures (reply, Current()) == Update(desk, known, old(Current()), lesson, payload, now, wait)
    {
      var target := Locate(desk, known, lesson, payload.section);
      if target.Missing? {
        return Refused(target.reason);
      }
      var key := Key(lesson, target.section);
      var access := AccessStatus(target.n, target.section, now);
      if access.Locked? || access.Waiting? {
        return Refused(NotYet);
      }
      if access.Done? {
        return Saved(RowAt(rows, key));
      }
      if !payload.complete && !payload.slide.Of? {
        return Refused(NothingReported);
      }
      var total := TotalSlides(payload.total, StoredSlides(Current(), lesson));
      if payload.total.Of? && payload.total.n > 0 {
        slides := slides[lesson := payload.total.n];
      }
      var row := WriteRow(RowAt(rows, key), payload, total, now);
      rows := rows[key := row];
      return Saved(row);
    }

    method CreateRequest(id: nat, lesson: nat, section: Requested, now: int) returns (reply: Reply<Key>)
      requires ValidDesk(desk)
      modifies this`requests
      ensures (reply, Current()) == Ask(desk, known, old(Current()), id, lesson, section, now, wait)
    {
      var target := Locate(desk, known, lesson, section);
      if target.Missing? {
        return Refused(target.reason);
      }
      var key := Key(lesson, target.section);
      var access := AccessStatus(target.n, target.section, now);
      if access.Available? {
        return Refused(AlreadyOpen);
      }
      if HasPending(requests, key) {
        return Saved(key);
      }
      requests := requests + [Request(id, key, Pending)];
      return Saved(key);
    }

    method ResolveRequest(id: nat, granted: bool) returns (reply: Reply<Key>)
      modifies this`rows, this`requests
      ensures (reply, Current()) == Resolve(old(Current()), id, granted)
    {
      var i := FindRequest(requests, id);
      if i < 0 {
        return Refused(NotFound);
      }
      var req := requests[i];
      if req.status != Pending {
        return Refused(AlreadyResolved);
      }
      if granted {
        var progress := if req.key in rows then rows[req.key] else FRESH;
        rows := rows[req.key := progress.(unlocked := true)];
      }
      requests := requests[i := req.(status := if granted then Granted else Denied)];
      return Saved(req.key);
    }

    method SetLessonOverride(lesson: nat, section: Requested, unlocked: bool) returns (reply: Reply<Key>)
      modifies this`rows, this`requests
      ensures (reply, Current()) == Override(desk, known, old(Current()), lesson, section, unlocked)
    {
      var target := Locate(desk, known, lesson, section);
      if target.Missing? {
        return Refused(target.reason);
      }
      var key := Key(lesson, target.section);
      rows := rows[key := RowAt(rows, key).(unlocked := unlocked)];
      if unlocked {
        ghost var written := rows;
        for i := 0 to |requests|
          invariant rows == written
          invariant |requests| == |old(requests)|
          invariant forall j :: 0 <= j < |requests| ==>
            requests[j] == if j < i then GrantAll(old(requests), key)[j] else old(requests)[j]
        {
          if IsPending(requests[i], key) {
            requests := requests[i := requests[i].(status := Granted)];
          }
        }
        assert requests == GrantAll(old(requests), key);
      }
      return Saved(key);
    }

    method ResetProgress(scope: Scope) returns (result: ResetResult)
      modifies this`rows
      ensures rows == Reset(old(rows), scope)
      ensures result == ResetCounts(old(rows), scope)
    {
      var scoped := Scoped(rows, scope);
      var keys := Sets.Enumerate(scoped);
      ghost var was := rows;
      ghost var seen: set<Key> := {};
      NothingCleared(was, scoped);
      result := ResetResult(|scoped|, 0, 0, 0, |set key | key in scoped :: key.section|);
      for i := 0 to |keys|
        invariant seen == Members(keys[..i]) && seen <= scoped
        invariant rows == ClearedRows(was, seen)
        invariant result == CountedRows(was, scoped, seen)
      {
        assert keys[i] in keys;
        OneMoreMember(keys, i);
        ClearOne(was, scoped, seen, keys[i]);
        result := CountRow(rows[keys[i]], result);
        rows := rows[keys[i] := FRESH];
        seen := seen + {keys[i]};
      }
      assert keys[..|keys|] == keys && seen == scoped;
    }
  }

  function Members(keys: seq<Key>): set<Key> {
    set key | key in keys
  }

  lemma OneMoreMember(keys: seq<Key>, i: nat)
    requires i < |keys| && forall a, b :: 0 <= a < b < |keys| ==> keys[a] != keys[b]
    ensures Members(keys[..i + 1]) == Members(keys[..i]) + {keys[i]} && keys[i] !in Members(keys[..i])
  {
  }

  /** What a reset has left once some of its rows are cleared, and what it has counted. */
  function ClearedRows(rows: Rows, keys: set<Key>): Rows {
    map key | key in rows :: if key in keys then FRESH else rows[key]
  }

  function CountedRows(rows: Rows, scoped: set<Key>, keys: set<Key>): ResetResult
    requires keys <= rows.Keys
  {
    ResetResult(
      |scoped|, Tally(rows, keys, WasCompleted), Tally(rows, keys, WasStarted), Tally(rows, keys, WasUnlocked),
      |set key | key in scoped :: key.section|)
  }

  function WithRow(result: ResetResult, p: Progress): ResetResult {
    result.(
      completed := result.completed + (if Tagged(p, WasCompleted) then 1 else 0),
      started := result.started + (if Tagged(p, WasStarted) then 1 else 0),
      overrides := result.overrides + (if Tagged(p, WasUnlocked) then 1 else 0))
  }

  lemma NothingCleared(rows: Rows, scoped: set<Key>)
    ensures ClearedRows(rows, {}) == rows
    ensures CountedRows(rows, scoped, {}) == ResetResult(|scoped|, 0, 0, 0, |set key | key in scoped :: key.section|)
  {
  }

  lemma ClearOne(rows: Rows, scoped: set<Key>, keys: set<Key>, key: Key)
    requires keys <= rows.Keys && key in rows && key !in keys
    ensures ClearedRows(rows, keys)[key := FRESH] == ClearedRows(rows, keys + {key})
    ensures ClearedRows(rows, keys)[key] == rows[key]
    ensures CountedRows(rows, scoped, keys + {key}) == WithRow(CountedRows(rows, scoped, keys), rows[key])
  {
    TallyAdd(rows, keys, key, WasCompleted);
    TallyAdd(rows, keys, key, WasStarted);
    TallyAdd(rows, keys, key, WasUnlocked);
  }

  /** One row's share of what a reset reports. */
  method CountRow(p: Progress, result: ResetResult) returns (r: ResetResult)
    ensures r == WithRow(result, p)
  {
    r := result;
    if p.status == Completed {
      r := r.(completed := r.completed + 1);
    } else if p.status != NotStarted || p.percent != 0 {
      r := r.(started := r.started + 1);
    }
    if p.unlocked {
      r := r.(overrides := r.overrides + 1);
    }
  }

  /** The field-by-field write of one report. */
  method WriteRow(p: Progress, payload: Payload, total: nat, now: int) returns (row: Progress)
    requires payload.complete || payload.slide.Of?
    ensures row == Written(p, payload, total, now)
  {
    var percent := ResolvePercent(payload, total);
    row := p.(percent := percent, lastOpened := At(now));
    if total > 0 {
      row := row.(slideTotal := Of(total));
    }
    if payload.complete {
      row := row.(lastSlide := if total > 0 then Of(total) else row.lastSlide);
    } else {
      row := row.(lastSlide := payload.slide);
    }
    row := row.(status := StatusOf(percent));
    if percent >= 100 {
      if row.completedAt == Never {
        row := row.(completedAt := At(now));
      }
      row := row.(unlocked := false);
    } else {
      row := row.(completedAt := Never);
    }
  }
}
