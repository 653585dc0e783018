/** The rolling allowance of questions: a log of charges, counted over the last hour and the
    last day. Check and charge are one step only while the account's lock is held between. */
module AiQuota {
  import opened Clock

  const HOUR: int := 3_600_000_000
  const DAY: int := 24 * HOUR

  datatype Kind = Teacher | Admin

  /** A limit of zero or less means no limit. */
  datatype Limits = Limits(teacherHourly: int, teacherDaily: int, adminHourly: int, adminDaily: int)

  function HourlyLimit(l: Limits, kind: Kind): int {
    if kind == Teacher then l.teacherHourly else l.adminHourly
  }

  function DailyLimit(l: Limits, kind: Kind): int {
    if kind == Teacher then l.teacherDaily else l.adminDaily
  }

  datatype Row = Row(id: nat, user: nat, kind: Kind, at: int)

  /** When one account was charged for one assistant. */
  function Stamps(rows: seq<Row>, user: nat, kind: Kind): seq<int> {
    if rows == [] then []
    else
      var last := rows[|rows| - 1];
      Stamps(rows[..|rows| - 1], user, kind) + if last.user == user && last.kind == kind then [last.at] else []
  }

  function Since(stamps: seq<int>, from: int): seq<int> {
    if stamps == [] then []
    else
      var last := stamps[|stamps| - 1];
      Since(stamps[..|stamps| - 1], from) + if last >= from then [last] else []
  }

  function CountFrom(stamps: seq<int>, from: int): nat {
    |Since(stamps, from)|
  }

  /** How many charges lie in a closed window. */
  function CountIn(stamps: seq<int>, from: int, to: int): nat {
    if stamps == [] then 0
    else
      var last := stamps[|stamps| - 1];
      CountIn(stamps[..|stamps| - 1], from, to) + if from <= last <= to then 1 else 0
  }

  /** Whether a window of this length, ending now, has no room left. */
  predicate Full(stamps: seq<int>, limit: int, span: int, now: int) {
    limit > 0 && CountFrom(stamps, now - span) >= limit
  }

  datatype Verdict = Admitted | HourSpent | DaySpent

  predicate OnePerId(rows: seq<Row>) {
    forall i, j :: 0 <= i < j < |rows| ==> rows[i].id != rows[j].id
  }

  function Without(rows: seq<Row>, id: nat): seq<Row> {
    if rows == [] then []
    else
      var last := rows[|rows| - 1];
      Without(rows[..|rows| - 1], id) + if last.id == id then [] else [last]
  }

  /** Another charge. */
  function Charged(rows: seq<Row>, id: nat, user: nat, kind: Kind, now: int): seq<Row> {
    rows + [Row(id, user, kind, now)]
  }

  function Judge(rows: seq<Row>, l: Limits, user: nat, kind: Kind, now: int): Verdict {
    var stamps := Stamps(rows, user, kind);
    if Full(stamps, HourlyLimit(l, kind), HOUR, now) then HourSpent
    else if Full(stamps, DailyLimit(l, kind), DAY, now) then DaySpent
    else Admitted
  }

  // ----- what is left -----

  function Insert(x: int, s: seq<int>): seq<int> {
    if s == [] || s[|s| - 1] <= x then s + [x] else Insert(x, s[..|s| - 1]) + [s[|s| - 1]]
  }

  function Sorted(s: seq<int>): seq<int> {
    if s == [] then [] else Insert(s[|s| - 1], Sorted(s[..|s| - 1]))
  }

  datatype Left = NoLimit | Left(n: nat)

  datatype Window = Window(used: nat, left: Left, resetsAt: Stamp)

  datatype Quota = Quota(hourly: Window, daily: Window)

  /** Nothing to wait for below the limit; at it, the oldest charge has to age out. */
  function FreesAt(window: seq<int>, limit: int, span: int): Stamp {
    if limit <= 0 || |window| < limit || window == [] then Never else At(window[0] + span)
  }

  function Report(window: seq<int>, limit: int, span: int): Window {
    Window(
      |window|,
      if limit > 0 then Left(if limit - |window| > 0 then limit - |window| else 0) else NoLimit,
      FreesAt(window, limit, span))
  }

  /** The usage log. */
  class UsageLog {
    const limits: Limits
    var rows: seq<Row>
    var nextId: nat

    constructor (limits: Limits)
      ensures this.limits == limits && rows == [] && Valid()
    {
      this.limits := limits;
      rows, nextId := [], 0;
    }

    /** Every id was given out once, and the next one is above them all. */
    predicate Valid()
      reads this
    {
      && (forall i :: 0 <= i < |rows| ==> rows[i].id < nextId)
      && OnePerId(rows)
    }

    /** Refuse when the hour or the day is spent. */
    method Enforce(user: nat, kind: Kind, now: int) returns (v: Verdict)
      ensures v == Judge(rows, limits, user, kind, now)
    {
      var hourly := if kind == Teacher then limits.teacherHourly else limits.adminHourly;
      var daily := if kind == Teacher then limits.teacherDaily else limits.adminDaily;
      var stamps := Stamps(rows, user, kind);
      var lastHour := |Since(stamps, now - HOUR)|;
      if hourly > 0 && lastHour >= hourly {
        return HourSpent;
      }
      var lastDay := |Since(stamps, now - DAY)|;
      if daily > 0 && lastDay >= daily {
        return DaySpent;
      }
      return Admitted;
    }

    /** Charge one question, and give the id it can be handed back by. */
    method Record(user: nat, kind: Kind, now: int) returns (id: nat)
      modifies this`rows, this`nextId
      ensures id == old(nextId) && nextId == id + 1
      ensures old(Valid()) ==> Valid()
      ensures rows == Charged(old(rows), id, user, kind, now)
    {
      id := nextId;
      nextId := nextId + 1;
      rows := rows + [Row(id, user, kind, now)];
    }

    /** Hand one question back: its row goes, and every other stays where it stood. Nothing
        happens when it is not there. */
    method Refund(id: nat)
      requires Valid()
      modifies this`rows
      ensures Valid()
      ensures forall row :: row in rows <==> row in old(rows) && row.id != id
      ensures |rows| == |old(rows)| - if Unused(old(rows), id) then 0 else 1
      ensures rows == Without(old(rows), id)
    {
      for i := 0 to |rows|
        invariant Unused(rows[..i], id)
      {
        if rows[i].id == id {
          RefundUndoesCharge(rows[..i], rows[i], rows[i + 1..]);
          assert rows == rows[..i] + [rows[i]] + rows[i + 1..];
          rows := rows[..i] + rows[i + 1..];
          return;
        }
      }
      assert rows[..|rows|] == rows;
      NothingToRefund(rows, id);
    }

    /** What one account has left, from one pass over the last day. */
    method QuotaFor(user: nat, kind: Kind, now: int) returns (q: Quota)
      ensures q == QuotaOf(rows, limits, user, kind, now)
    {
      var stamps := Sorted(Since(Stamps(rows, user, kind), now - DAY));
      var inHour := Since(stamps, now - HOUR);
      q := Quota(
        Report(inHour, HourlyLimit(limits, kind), HOUR),
        Report(stamps, DailyLimit(limits, kind), DAY));
    }
  }

  function QuotaOf(rows: seq<Row>, l: Limits, user: nat, kind: Kind, now: int): Quota {
    var stamps := Sorted(Since(Stamps(rows, user, kind), now - DAY));
    Quota(
      Report(Since(stamps, now - HOUR), HourlyLimit(l, kind), HOUR),
      Report(stamps, DailyLimit(l, kind), DAY))
  }

  // ----- handing a question back -----

  predicate Unused(rows: seq<Row>, id: nat) {
    forall i :: 0 <= i < |rows| ==> rows[i].id != id
  }

  lemma {:induction false} NothingToRefund(rows: seq<Row>, id: nat)
    requires Unused(rows, id)
    ensures Without(rows, id) == rows
  {
    if rows != [] {
      NothingToRefund(rows[..|rows| - 1], id);
    }
  }

  /** A refund undoes its charge, whatever was charged or refunded between the two. */
  lemma {:induction false} RefundUndoesCharge(before: seq<Row>, row: Row, after: seq<Row>)
    requires Unused(before, row.id) && Unused(after, row.id)
    ensures Without(before + [row] + after, row.id) == before + after
  {
    if after == [] {
      assert before + [row] + after == before + [row] && before + after == before;
      assert (before + [row])[..|before|] == before;
      NothingToRefund(before, row.id);
    } else {
      var front, last := after[..|after| - 1], after[|after| - 1];
      var all := before + [row] + after;
      assert all[..|all| - 1] == before + [row] + front && all[|all| - 1] == last;
      RefundUndoesCharge(before, row, front);
      assert before + after == before + front + [last];
    }
  }

  // ----- the report agrees with the check -----

  predicate InOrder(s: seq<int>) {
    forall i, j :: 0 <= i < j < |s| ==> s[i] <= s[j]
  }

  predicate AtMost(s: seq<int>, high: int) {
    forall i :: 0 <= i < |s| ==> s[i] <= high
  }

  lemma {:induction false} InsertKeepsBound(x: int, s: seq<int>, high: int)
    requires AtMost(s, high) && x <= high
    ensures AtMost(Insert(x, s), high)
  {
    if s != [] && s[|s| - 1] > x {
      InsertKeepsBound(x, s[..|s| - 1], high);
    }
  }

  lemma {:induction false} InsertKeepsOrder(x: int, s: seq<int>)
    requires InOrder(s)
    ensures InOrder(Insert(x, s))
  {
    if s != [] && s[|s| - 1] > x {
      InsertKeepsOrder(x, s[..|s| - 1]);
      InsertKeepsBound(x, s[..|s| - 1], s[|s| - 1]);
    }
  }

  lemma {:induction false} InsertCounts(x: int, s: seq<int>, from: int)
    ensures |Insert(x, s)| == |s| + 1
    ensures CountFrom(Insert(x, s), from) == CountFrom(s, from) + if x >= from then 1 else 0
  {
    if s != [] && s[|s| - 1] > x {
      var front := s[..|s| - 1];
      InsertCounts(x, front, from);
      CountFromLast(Insert(x, front), s[|s| - 1], from);
    } else {
      CountFromLast(s, x, from);
    }
  }

  lemma {:induction false} SortedInOrder(s: seq<int>, from: int)
    ensures InOrder(Sorted(s)) && |Sorted(s)| == |s|
    ensures CountFrom(Sorted(s), from) == CountFrom(s, from)
  {
    if s != [] {
      SortedInOrder(s[..|s| - 1], from);
      InsertKeepsOrder(s[|s| - 1], Sorted(s[..|s| - 1]));
      InsertCounts(s[|s| - 1], Sorted(s[..|s| - 1]), from);
    }
  }

  lemma {:induction false} SinceWithin(s: seq<int>, from: int, low: int, high: int)
    requires forall i :: 0 <= i < |s| ==> low <= s[i] <= high
    ensures forall i :: 0 <= i < |Since(s, from)| ==> low <= Since(s, from)[i] <= high && Since(s, from)[i] >= from
  {
    if s != [] {
      SinceWithin(s[..|s| - 1], from, low, high);
    }
  }

  lemma {:induction false} SinceKeepsOrder(s: seq<int>, from: int)
    requires InOrder(s)
    ensures InOrder(Since(s, from))
  {
    if s != [] {
      SinceKeepsOrder(s[..|s| - 1], from);
      SinceWithin(s[..|s| - 1], from, s[0], s[|s| - 1]);
    }
  }

  lemma CountFromLast(s: seq<int>, x: int, from: int)
    ensures CountFrom(s + [x], from) == CountFrom(s, from) + if x >= from then 1 else 0
  {
  }

  lemma {:induction false} SinceTwice(s: seq<int>, first: int, from: int)
    ensures CountFrom(Since(s, first), from) == CountFrom(s, if first >= from then first else from)
  {
    if s != [] {
      SinceTwice(s[..|s| - 1], first, from);
      var last := s[|s| - 1];
      var front := Since(s[..|s| - 1], first);
      CountFromLast(front, last, from);
      assert Since(s, first) == if last >= first then front + [last] else front;
    }
  }

  lemma {:induction false} CountFromFalls(s: seq<int>, low: int, high: int)
    requires low <= high
    ensures CountFrom(s, high) <= CountFrom(s, low) <= |s|
  {
    if s != [] {
      CountFromFalls(s[..|s| - 1], low, high);
    }
  }

  lemma {:induction false} CountFromAll(s: seq<int>, from: int)
    ensures CountFrom(s, from) == |s| <==> forall i :: 0 <= i < |s| ==> s[i] >= from
  {
    if s != [] {
      CountFromAll(s[..|s| - 1], from);
      CountFromFalls(s[..|s| - 1], from, from);
    }
  }

  /** What one reported window says, about the charges it was made from. */
  predicate Honest(w: Window, stamps: seq<int>, limit: int, span: int, now: int) {
    && w.used == CountFrom(stamps, now - span)
    && (limit > 0 ==> w.left == Left(if limit > w.used then limit - w.used else 0) && (w.left.n == 0 <==> Full(stamps, limit, span, now)))
    && (limit <= 0 ==> w.left == NoLimit)
    && (w.resetsAt.At? <==> Full(stamps, limit, span, now))
    && (w.resetsAt.At? ==>
          && CountFrom(stamps, w.resetsAt.t - span) == w.used
          && CountFrom(stamps, w.resetsAt.t - span + 1) < w.used
          && w.resetsAt.t >= now)
  }

  predicate SameCount(window: seq<int>, stamps: seq<int>, from: int) {
    CountFrom(window, from) == CountFrom(stamps, from)
  }

  lemma WindowIsHonest(window: seq<int>, stamps: seq<int>, limit: int, span: int, now: int)
    requires InOrder(window) && (forall i :: 0 <= i < |window| ==> window[i] >= now - span)
    requires |window| == CountFrom(stamps, now - span)
    requires window == [] || SameCount(window, stamps, window[0])
    requires window == [] || SameCount(window, stamps, window[0] + 1)
    ensures Honest(Report(window, limit, span), stamps, limit, span, now)
  {
    if window != [] {
      CountFromAll(window, window[0]);
      CountFromAll(window, window[0] + 1);
      CountFromFalls(window, window[0] + 1, window[0] + 1);
    }
  }

  /** One window, cut out of the one sorted pass over the last day. */
  function WindowOf(stamps: seq<int>, span: int, now: int): seq<int> {
    Since(Sorted(Since(stamps, now - DAY)), now - span)
  }

  lemma WindowCounts(stamps: seq<int>, span: int, now: int, from: int)
    requires span <= DAY && from >= now - span
    ensures SameCount(WindowOf(stamps, span, now), stamps, from)
  {
    var day := Since(stamps, now - DAY);
    SinceTwice(Sorted(day), now - span, from);
    SortedInOrder(day, from);
    SinceTwice(stamps, now - DAY, from);
  }

  lemma WindowInOrder(stamps: seq<int>, span: int, now: int)
    requires span <= DAY
    ensures InOrder(WindowOf(stamps, span, now))
    ensures forall i :: 0 <= i < |WindowOf(stamps, span, now)| ==> WindowOf(stamps, span, now)[i] >= now - span
    ensures |WindowOf(stamps, span, now)| == CountFrom(stamps, now - span)
  {
    WindowRises(stamps, span, now);
    SinceInWindow(Sorted(Since(stamps, now - DAY)), now - span);
    WindowCounts(stamps, span, now, now - span);
    CountFromAll(WindowOf(stamps, span, now), now - span);
  }

  lemma WindowRises(stamps: seq<int>, span: int, now: int)
    ensures InOrder(WindowOf(stamps, span, now))
  {
    var day := Since(stamps, now - DAY);
    SortedInOrder(day, now - span);
    SinceKeepsOrder(Sorted(day), now - span);
  }

  lemma WindowReport(stamps: seq<int>, limit: int, span: int, now: int)
    requires span <= DAY
    ensures Honest(Report(WindowOf(stamps, span, now), limit, span), stamps, limit, span, now)
  {
    var window := WindowOf(stamps, span, now);
    WindowInOrder(stamps, span, now);
    if window != [] {
      WindowCounts(stamps, span, now, window[0]);
      WindowCounts(stamps, span, now, window[0] + 1);
    }
    WindowIsHonest(window, stamps, limit, span, now);
  }

  lemma {:induction false} SinceAll(s: seq<int>, from: int)
    requires forall i :: 0 <= i < |s| ==> s[i] >= from
    ensures Since(s, from) == s
  {
    if s != [] {
      SinceAll(s[..|s| - 1], from);
    }
  }

  lemma {:induction false} SinceInWindow(s: seq<int>, from: int)
    ensures forall i :: 0 <= i < |Since(s, from)| ==> Since(s, from)[i] >= from
  {
    if s != [] {
      SinceInWindow(s[..|s| - 1], from);
    }
  }

  lemma DayWindow(stamps: seq<int>, now: int)
    ensures Since(Sorted(Since(stamps, now - DAY)), now - DAY) == Sorted(Since(stamps, now - DAY))
  {
    var day := Since(stamps, now - DAY);
    SinceInWindow(stamps, now - DAY);
    CountFromAll(day, now - DAY);
    SortedInOrder(day, now - DAY);
    CountFromAll(Sorted(day), now - DAY);
    SinceAll(Sorted(day), now - DAY);
  }

  /** The report and the check agree: a question is admitted exactly when neither window
      reports nothing left, and a reset time is given exactly for a window that refuses. */
  lemma QuotaAgreesWithCheck(rows: seq<Row>, l: Limits, user: nat, kind: Kind, now: int)
    ensures var q := QuotaOf(rows, l, user, kind, now);
      && (Judge(rows, l, user, kind, now) == Admitted <==> q.hourly.left != Left(0) && q.daily.left != Left(0))
      && (Judge(rows, l, user, kind, now) == HourSpent <==> q.hourly.resetsAt.At?)
      && (Judge(rows, l, user, kind, now) == DaySpent <==> !q.hourly.resetsAt.At? && q.daily.resetsAt.At?)
      && Honest(q.hourly, Stamps(rows, user, kind), HourlyLimit(l, kind), HOUR, now)
      && Honest(q.daily, Stamps(rows, user, kind), DailyLimit(l, kind), DAY, now)
  {
    var stamps := Stamps(rows, user, kind);
    WindowReport(stamps, HourlyLimit(l, kind), HOUR, now);
    WindowReport(stamps, DailyLimit(l, kind), DAY, now);
    DayWindow(stamps, now);
  }

  /** The charges of one account for one assistant, from some moment on. */
  function ChargesFrom(rows: seq<Row>, user: nat, kind: Kind, from: int): set<nat> {
    set i: nat | i < |rows| && rows[i].user == user && rows[i].kind == kind && rows[i].at >= from
  }

  lemma OneMoreCharge(front: seq<Row>, row: Row, user: nat, kind: Kind, from: int)
    ensures |ChargesFrom(front + [row], user, kind, from)|
      == |ChargesFrom(front, user, kind, from)| + if row.user == user && row.kind == kind && row.at >= from then 1 else 0
  {
    var before, after := ChargesFrom(front, user, kind, from), ChargesFrom(front + [row], user, kind, from);
    if row.user == user && row.kind == kind && row.at >= from {
      assert after == before + {|front|};
    } else {
      assert after == before;
    }
  }

  lemma {:induction false} ChargesCounted(rows: seq<Row>, user: nat, kind: Kind, from: int)
    ensures CountFrom(Stamps(rows, user, kind), from) == |ChargesFrom(rows, user, kind, from)|
  {
    if rows != [] {
      var front, row := rows[..|rows| - 1], rows[|rows| - 1];
      ChargesCounted(front, user, kind, from);
      OneMoreCharge(front, row, user, kind, from);
      assert front + [row] == rows;
      if row.user == user && row.kind == kind {
        CountFromLast(Stamps(front, user, kind), row.at, from);
      } else {
        assert Stamps(rows, user, kind) == Stamps(front, user, kind);
      }
    }
  }

  /** Each assistant's own limits decide, on the account's charges of the last hour and of the
      last day; a limit of zero or less refuses nobody. */
  lemma RefusedExactly(rows: seq<Row>, l: Limits, user: nat, kind: Kind, now: int)
    ensures var hour, day := |ChargesFrom(rows, user, kind, now - 3_600_000_000)|, |ChargesFrom(rows, user, kind, now - 86_400_000_000)|;
      match kind
      case Teacher =>
        && (Judge(rows, l, user, kind, now) == HourSpent <==> 0 < l.teacherHourly <= hour)
        && (Judge(rows, l, user, kind, now) == Admitted <==> !(0 < l.teacherHourly <= hour) && !(0 < l.teacherDaily <= day))
      case Admin =>
        && (Judge(rows, l, user, kind, now) == HourSpent <==> 0 < l.adminHourly <= hour)
        && (Judge(rows, l, user, kind, now) == Admitted <==> !(0 < l.adminHourly <= hour) && !(0 < l.adminDaily <= day))
  {
    ChargesCounted(rows, user, kind, now - HOUR);
    ChargesCounted(rows, user, kind, now - DAY);
  }

  /** While nothing new is charged, a full window refuses up to its reported reset; and that
      is its last refusal exactly when fewer charges than the limit came after the oldest
      one counted, which is so whenever the window holds exactly its limit. */
  lemma ResetIsExact(w: Window, stamps: seq<int>, limit: int, span: int, now: int)
    requires Honest(w, stamps, limit, span, now) && w.resetsAt.At?
    ensures forall t :: now <= t <= w.resetsAt.t ==> Full(stamps, limit, span, t)
    ensures (forall t :: t > w.resetsAt.t ==> !Full(stamps, limit, span, t))
      <==> CountFrom(stamps, w.resetsAt.t - span + 1) < limit
    ensures w.used == limit ==> forall t :: t > w.resetsAt.t ==> !Full(stamps, limit, span, t)
  {
    var e := w.resetsAt.t;
    forall t | now <= t <= e ensures Full(stamps, limit, span, t) {
      CountFromFalls(stamps, t - span, e - span);
    }
    forall t | t > e ensures Full(stamps, limit, span, t) ==> Full(stamps, limit, span, e + 1) {
      CountFromFalls(stamps, e + 1 - span, t - span);
    }
    assert Full(stamps, limit, span, e + 1) <==> CountFrom(stamps, e - span + 1) >= limit;
  }

  /** Three charges against a limit lowered to two: the report names the moment the first ages
      out, and the next question is refused after it. */
  lemma OverfullRefusesLonger()
    ensures var rows, l := THREE, Limits(2, 0, 0, 0);
      && QuotaOf(rows, l, 7, Teacher, 10).hourly.resetsAt == At(HOUR)
      && Judge(rows, l, 7, Teacher, HOUR + 1) == HourSpent
  {
    ThreeStamps();
    QuotaAgreesWithCheck(THREE, Limits(2, 0, 0, 0), 7, Teacher, 10);
    ThreeReset(QuotaOf(THREE, Limits(2, 0, 0, 0), 7, Teacher, 10).hourly);
    ThreeCounted(1);
  }

  const THREE: seq<Row> := [Row(0, 7, Teacher, 0), Row(1, 7, Teacher, 1), Row(2, 7, Teacher, 2)]

  lemma ThreeStamps()
    ensures Stamps(THREE, 7, Teacher) == [0, 1, 2]
  {
    var one, two := THREE[..1], THREE[..2];
    assert two[..1] == one && one[..0] == [];
    assert Stamps(one, 7, Teacher) == [] + [0];
    assert Stamps(two, 7, Teacher) == [0] + [1];
    assert Stamps(THREE, 7, Teacher) == [0, 1] + [2];
  }

  lemma ThreeCounted(from: int)
    ensures CountFrom([0, 1, 2], from) == if from <= 0 then 3 else if from == 1 then 2 else if from == 2 then 1 else 0
  {
    CountFromLast([], 0, from);
    CountFromLast([0], 1, from);
    CountFromLast([0, 1], 2, from);
    assert [] + [0] == [0] && [0] + [1] == [0, 1] && [0, 1] + [2] == [0, 1, 2];
  }

  lemma ThreeReset(w: Window)
    requires Honest(w, [0, 1, 2], 2, HOUR, 10)
    ensures w.resetsAt == At(HOUR)
  {
    ThreeCounted(10 - HOUR);
    if w.resetsAt.At? {
      ThreeCounted(w.resetsAt.t - HOUR);
      ThreeCounted(w.resetsAt.t - HOUR + 1);
    }
  }
}
