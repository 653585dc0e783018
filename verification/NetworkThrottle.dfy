/** The throttle of one network address: failures make cycles, cycles lock it, and a run of
    cycles without a sign-in bans it. */
module NetworkThrottle {
  import opened Clock

  datatype Limits = Limits(maxFailures: nat, window: nat, banCycles: nat, cycleWindow: nat, lockout: nat, blockFor: nat)

  predicate ValidLimits(l: Limits) {
    l.maxFailures >= 1 && l.window >= 1
  }

  /** The address's row, or that it has none yet. */
  datatype State =
    | NoRow
    | Row(failed: nat, cycles: nat, windowStart: Stamp, lockedUntil: Stamp, blockedAt: Stamp, cycleStart: Stamp, lastSuccess: Stamp)

  const NEW_ROW: State := Row(0, 0, Never, Never, Never, Never, Never)

  datatype Verdict = Blocked | TooMany | Admitted(s: State)

  /** The check before a sign-in: refuse, or admit and lift what has run out. */
  function Enforce(l: Limits, s: State, now: int): Verdict {
    if s.NoRow? then Admitted(s)
    else if s.blockedAt.At? && now - s.blockedAt.t < l.blockFor then Blocked
    else
      var t := if s.blockedAt.At? then s.(blockedAt := Never, cycles := 0, cycleStart := Never, failed := 0, windowStart := Never, lockedUntil := Never) else s;
      if t.lockedUntil.At? && t.lockedUntil.t > now then TooMany
      else if t.lockedUntil.At? then Admitted(t.(lockedUntil := Never, failed := 0, windowStart := Never))
      else Admitted(t)
  }

  predicate WindowExpired(l: Limits, row: State, now: int)
    requires row.Row?
  {
    row.windowStart == Never || row.windowStart.t <= now - l.window
  }

  predicate CyclesStale(l: Limits, row: State, now: int)
    requires row.Row?
  {
    row.cycleStart == Never || row.cycleStart.t <= now - l.cycleWindow
  }

  /** The failures of one window are up: count a cycle. Enough cycles, with no sign-in since the first,
      ban the address, and otherwise they lock it. */
  function CompleteCycle(l: Limits, row: State, now: int): State
    requires row.Row?
  {
    var cycleStart := if CyclesStale(l, row, now) then now else row.cycleStart.t;
    var cycles := (if CyclesStale(l, row, now) then 0 else row.cycles) + 1;
    var signedIn := row.lastSuccess.At? && row.lastSuccess.t >= cycleStart;
    var next := row.(failed := 0, windowStart := Never, cycles := cycles, cycleStart := At(cycleStart));
    if cycles >= l.banCycles && !signedIn
    then next.(blockedAt := At(now), lockedUntil := Never)
    else next.(lockedUntil := At(now + l.lockout))
  }

  function RowOf(s: State): (r: State)
    ensures r.Row?
  {
    if s.NoRow? then NEW_ROW else s
  }

  function RecordFailure(l: Limits, s: State, now: int): State {
    var row := RowOf(s);
    if row.blockedAt.At? then row
    else
      var failed := (if WindowExpired(l, row, now) then 0 else row.failed) + 1;
      if failed < l.maxFailures
      then row.(failed := failed, windowStart := if WindowExpired(l, row, now) then At(now) else row.windowStart)
      else CompleteCycle(l, row, now)
  }

  /** Somebody signed in: the run in progress is forgiven, the cycles are not. */
  function ClearFailures(s: State, now: int): State {
    if s.NoRow? || s.blockedAt.At? then s
    else s.(failed := 0, windowStart := Never, lockedUntil := Never, lastSuccess := At(now))
  }

  /** The row of one address, as the sign-in route changes it. */
  class Throttle {
    const limits: Limits
    var present: bool
    var failedCount: nat
    var cycleCount: nat
    var windowStartedAt: Stamp
    var lockedUntil: Stamp
    var blockedAt: Stamp
    var cycleStartedAt: Stamp
    var lastSuccessAt: Stamp

    constructor (limits: Limits)
      ensures this.limits == limits && Current() == NoRow
    {
      this.limits := limits;
      present := false;
      failedCount, cycleCount := 0, 0;
      windowStartedAt, lockedUntil, blockedAt, cycleStartedAt, lastSuccessAt := Never, Never, Never, Never, Never;
    }

    function Current(): State
      reads this
    {
      if present then Row(failedCount, cycleCount, windowStartedAt, lockedUntil, blockedAt, cycleStartedAt, lastSuccessAt) else NoRow
    }

    method EnforceThrottle(now: int) returns (verdict: Verdict)
      modifies this
      ensures verdict == Enforce(limits, old(Current()), now)
      ensures Current() == if verdict.Admitted? then verdict.s else old(Current())
    {
      if !present {
        return Admitted(NoRow);
      }
      var wasBlocked := blockedAt != Never;
      if wasBlocked {
        if now - blockedAt.t >= limits.blockFor {
          blockedAt := Never;
          cycleCount := 0;
          cycleStartedAt := Never;
          failedCount := 0;
          windowStartedAt := Never;
          lockedUntil := Never;
        } else {
          return Blocked;
        }
      }
      if lockedUntil != Never && lockedUntil.t > now {
        return TooMany;
      }
      if lockedUntil != Never {
        lockedUntil := Never;
        failedCount := 0;
        windowStartedAt := Never;
      }
      return Admitted(Current());
    }

    method Fail(now: int)
      modifies this
      ensures Current() == RecordFailure(limits, old(Current()), now)
    {
      if !present {
        present := true;
        failedCount, cycleCount := 0, 0;
        windowStartedAt, lockedUntil, blockedAt, cycleStartedAt, lastSuccessAt := Never, Never, Never, Never, Never;
      }
      if blockedAt != Never {
        return;
      }
      if windowStartedAt == Never || windowStartedAt.t <= now - limits.window {
        windowStartedAt := At(now);
        failedCount := 0;
      }
      failedCount := failedCount + 1;
      if failedCount < limits.maxFailures {
        return;
      }
      FinishCycle(now);
    }

    /** A window has filled up: count a cycle, and lock or ban. */
    method FinishCycle(now: int)
      requires present
      modifies this
      ensures Current() == CompleteCycle(limits, old(Current()), now)
    {
      var cycleStarted := cycleStartedAt;
      if cycleStarted == Never || cycleStarted.t <= now - limits.cycleWindow {
        cycleCount := 0;
        cycleStartedAt := At(now);
        cycleStarted := At(now);
      }
      cycleCount := cycleCount + 1;
      failedCount := 0;
      windowStartedAt := Never;
      var signedSomeoneIn := lastSuccessAt != Never && lastSuccessAt.t >= cycleStarted.t;
      if cycleCount >= limits.banCycles && !signedSomeoneIn {
        blockedAt := At(now);
        lockedUntil := Never;
      } else {
        lockedUntil := At(now + limits.lockout);
      }
    }

    method Succeed(now: int)
      modifies this
      ensures Current() == ClearFailures(old(Current()), now)
    {
      if !present || blockedAt != Never {
        return;
      }
      failedCount := 0;
      windowStartedAt := Never;
      lockedUntil := Never;
      lastSuccessAt := At(now);
    }
  }

  // ----- runs, with the history of what was admitted -----

  /** How a sign-in ended. `Other` is the right password on an account that cannot use it. */
  datatype Kind = Failure | Success | Other

  datatype Attempt = Attempt(now: int, kind: Kind)

  function After(l: Limits, s: State, a: Attempt): State {
    match Enforce(l, s, a.now)
    case Blocked => s
    case TooMany => s
    case Admitted(t) =>
      match a.kind
      case Failure => RecordFailure(l, t, a.now)
      case Success => ClearFailures(t, a.now)
      case Other => t
  }

  predicate IsAdmitted(l: Limits, s: State, a: Attempt) {
    Enforce(l, s, a.now).Admitted?
  }

  function Run(l: Limits, attempts: seq<Attempt>): State {
    if attempts == [] then NoRow else After(l, Run(l, attempts[..|attempts| - 1]), attempts[|attempts| - 1])
  }

  /** The admitted attempts of a run. */
  function History(l: Limits, attempts: seq<Attempt>): seq<Attempt> {
    if attempts == [] then []
    else
      var p := attempts[..|attempts| - 1];
      var a := attempts[|attempts| - 1];
      if IsAdmitted(l, Run(l, p), a) then History(l, p) + [a] else History(l, p)
  }

  predicate Rising(attempts: seq<Attempt>) {
    forall i, j :: 0 <= i < j < |attempts| ==> attempts[i].now <= attempts[j].now
  }

  /** How many failures of a history are no earlier than `from`. */
  function FailuresSince(h: seq<Attempt>, from: int): nat {
    if h == [] then 0
    else FailuresSince(h[..|h| - 1], from) + if h[|h| - 1].kind == Failure && h[|h| - 1].now >= from then 1 else 0
  }

  /** How many failures of a history come after one of its entries. */
  function FailuresAfter(h: seq<Attempt>, mark: nat): nat {
    if |h| <= mark + 1 then 0
    else FailuresAfter(h[..|h| - 1], mark) + if h[|h| - 1].kind == Failure then 1 else 0
  }

  /** Which entries of a history the two counts are of. */
  function EntriesSince(h: seq<Attempt>, from: int): set<nat> {
    set i: nat | i < |h| && h[i].kind == Failure && h[i].now >= from
  }

  function EntriesAfter(h: seq<Attempt>, mark: nat): set<nat> {
    set i: nat | mark < i < |h| && h[i].kind == Failure
  }

  lemma OneMoreEntry(front: seq<Attempt>, a: Attempt, from: int, mark: nat)
    ensures EntriesSince(front + [a], from) == EntriesSince(front, from) + if a.kind == Failure && a.now >= from then {|front|} else {}
    ensures EntriesAfter(front + [a], mark) == EntriesAfter(front, mark) + if a.kind == Failure && mark < |front| then {|front|} else {}
  {
  }

  lemma {:induction false} FailuresAreEntries(h: seq<Attempt>, from: int, mark: nat)
    ensures FailuresSince(h, from) == |EntriesSince(h, from)| && FailuresAfter(h, mark) == |EntriesAfter(h, mark)|
  {
    if h != [] {
      var front, a := h[..|h| - 1], h[|h| - 1];
      FailuresAreEntries(front, from, mark);
      OneMoreEntry(front, a, from, mark);
      assert front + [a] == h;
    }
  }

  lemma {:induction false} EarlierCountsMore(h: seq<Attempt>, from: int, earlier: int)
    requires earlier <= from
    ensures FailuresSince(h, from) <= FailuresSince(h, earlier)
  {
    if h != [] {
      EarlierCountsMore(h[..|h| - 1], from, earlier);
    }
  }

  /** The failures of the window in progress are in the history. */
  predicate WindowBacked(l: Limits, s: State, h: seq<Attempt>) {
    s.Row? ==>
      && (s.windowStart == Never ==> s.failed == 0)
      && (s.windowStart.At? ==> s.failed < l.maxFailures && s.failed <= FailuresSince(h, s.windowStart.t)
                                && h != [] && s.windowStart.t <= h[|h| - 1].now)
  }

  /** The cycles counted are in the history: `mark` is the failure that completed the first
      of them, its failures are less than a window older than that, those of the others and of
      the window in progress come after it, and a sign-in since is remembered. */
  ghost predicate CyclesBacked(l: Limits, s: State, h: seq<Attempt>, mark: nat) {
    s.Row? ==>
      && (s.cycleStart == Never ==> s.cycles == 0)
      && (s.cycleStart.At? ==>
            && mark < |h| && h[mark] == Attempt(s.cycleStart.t, Failure)
            && s.cycles >= 1
            && s.cycles * l.maxFailures + s.failed <= FailuresSince(h, s.cycleStart.t - l.window + 1)
            && l.maxFailures <= FailuresSince(h[..mark + 1], s.cycleStart.t - l.window + 1)
            && (s.cycles - 1) * l.maxFailures + s.failed <= FailuresAfter(h, mark)
            && forall i :: mark < i < |h| && h[i].kind == Success ==> s.lastSuccess.At? && s.lastSuccess.t >= h[i].now)
  }

  lemma EnforceStaysBacked(l: Limits, s: State, h: seq<Attempt>, now: int, mark: nat)
    requires ValidLimits(l) && WindowBacked(l, s, h) && CyclesBacked(l, s, h, mark)
    requires Enforce(l, s, now).Admitted?
    ensures WindowBacked(l, Enforce(l, s, now).s, h) && CyclesBacked(l, Enforce(l, s, now).s, h, mark)
    ensures Enforce(l, s, now).s.Row? ==> Enforce(l, s, now).s.blockedAt == Never
  {
  }

  /** One more admitted attempt, at the end of the history. */
  predicate Extends(h: seq<Attempt>, a: Attempt) {
    forall i :: 0 <= i < |h| ==> h[i].now <= a.now
  }

  lemma OneMore(h: seq<Attempt>, a: Attempt, from: int)
    ensures FailuresSince(h + [a], from) == FailuresSince(h, from) + if a.kind == Failure && a.now >= from then 1 else 0
  {
  }

  lemma OneMoreAfter(h: seq<Attempt>, a: Attempt, mark: nat)
    requires mark < |h|
    ensures FailuresAfter(h + [a], mark) == FailuresAfter(h, mark) + if a.kind == Failure then 1 else 0
    ensures (h + [a])[..mark + 1] == h[..mark + 1]
  {
    assert (h + [a])[..|h|] == h;
  }

  lemma QuietStaysBacked(l: Limits, s: State, h: seq<Attempt>, a: Attempt, mark: nat)
    requires ValidLimits(l) && WindowBacked(l, s, h) && CyclesBacked(l, s, h, mark) && Extends(h, a)
    requires a.kind != Failure && (s.Row? ==> s.blockedAt == Never)
    ensures var t := if a.kind == Success then ClearFailures(s, a.now) else s;
      WindowBacked(l, t, h + [a]) && CyclesBacked(l, t, h + [a], mark)
  {
    if s.Row? && s.cycleStart.At? {
      OneMoreAfter(h, a, mark);
    }
  }

  /** The window's failures, counting the one now, are in the history. */
  lemma FailureCounts(l: Limits, s: State, h: seq<Attempt>, a: Attempt) returns (start: int, failed: nat)
    requires ValidLimits(l) && WindowBacked(l, s, h) && Extends(h, a) && a.kind == Failure
    ensures failed == (if WindowExpired(l, RowOf(s), a.now) then 0 else RowOf(s).failed) + 1
    ensures start == if WindowExpired(l, RowOf(s), a.now) then a.now else RowOf(s).windowStart.t
    ensures a.now - l.window < start <= a.now
    ensures failed <= FailuresSince(h + [a], start) && failed <= l.maxFailures
  {
    start := if WindowExpired(l, RowOf(s), a.now) then a.now else RowOf(s).windowStart.t;
    failed := (if WindowExpired(l, RowOf(s), a.now) then 0 else RowOf(s).failed) + 1;
    OneMore(h, a, start);
  }

  lemma FailureBacksWindow(l: Limits, s: State, h: seq<Attempt>, a: Attempt)
    requires ValidLimits(l) && WindowBacked(l, s, h) && Extends(h, a)
    requires a.kind == Failure && (s.Row? ==> s.blockedAt == Never)
    ensures WindowBacked(l, RecordFailure(l, s, a.now), h + [a])
  {
  }

  /** The cycles' failures, counting the one now, are in the history: it completes a first one, */
  lemma FirstCycleBacked(l: Limits, row: State, h: seq<Attempt>, a: Attempt, start: int)
    requires ValidLimits(l) && row.Row? && CyclesStale(l, row, a.now) && a.kind == Failure
    requires a.now - l.window < start <= a.now && l.maxFailures <= FailuresSince(h + [a], start)
    ensures CyclesBacked(l, CompleteCycle(l, row, a.now), h + [a], |h|)
  {
    var g := h + [a];
    EarlierCountsMore(g, start, a.now - l.window + 1);
    assert g[|h|] == a && g[..|h| + 1] == g;
  }

  /** or one more. */
  lemma NextCycleBacked(l: Limits, row: State, h: seq<Attempt>, a: Attempt, mark: nat)
    requires ValidLimits(l) && row.Row? && CyclesBacked(l, row, h, mark) && !CyclesStale(l, row, a.now)
    requires Extends(h, a) && a.kind == Failure
    requires row.failed < l.maxFailures && l.maxFailures <= row.failed + 1
    ensures CyclesBacked(l, CompleteCycle(l, row, a.now), h + [a], mark)
  {
    var g := h + [a];
    OneMore(h, a, row.cycleStart.t - l.window + 1);
    OneMoreAfter(h, a, mark);
    assert h[mark].now <= a.now;
    assert forall i :: 0 <= i < |h| ==> g[i] == h[i];
    assert (row.cycles + 1) * l.maxFailures == row.cycles * l.maxFailures + l.maxFailures;
    assert row.cycles * l.maxFailures == (row.cycles - 1) * l.maxFailures + l.maxFailures;
  }

  lemma CycleBacked(l: Limits, row: State, h: seq<Attempt>, a: Attempt, mark: nat, start: int)
    requires ValidLimits(l) && row.Row? && CyclesBacked(l, row, h, mark) && Extends(h, a) && a.kind == Failure
    requires a.now - l.window < start <= a.now && l.maxFailures <= FailuresSince(h + [a], start)
    requires row.failed < l.maxFailures && l.maxFailures == (if WindowExpired(l, row, a.now) then 0 else row.failed) + 1
    ensures CyclesBacked(l, CompleteCycle(l, row, a.now), h + [a], if CyclesStale(l, row, a.now) then |h| else mark)
  {
    if CyclesStale(l, row, a.now) {
      FirstCycleBacked(l, row, h, a, start);
    } else {
      NextCycleBacked(l, row, h, a, mark);
    }
  }

  lemma FailureBacksCycles(l: Limits, s: State, h: seq<Attempt>, a: Attempt, mark: nat) returns (next: nat)
    requires ValidLimits(l) && WindowBacked(l, s, h) && CyclesBacked(l, s, h, mark) && Extends(h, a)
    requires a.kind == Failure && (s.Row? ==> s.blockedAt == Never)
    ensures CyclesBacked(l, RecordFailure(l, s, a.now), h + [a], next)
  {
    var start, failed := FailureCounts(l, s, h, a);
    var row := RowOf(s);
    if failed >= l.maxFailures {
      next := if CyclesStale(l, row, a.now) then |h| else mark;
      CycleBacked(l, row, h, a, mark, start);
    } else {
      next := mark;
      if row.cycleStart.At? {
        OneMore(h, a, row.cycleStart.t - l.window + 1);
        OneMoreAfter(h, a, mark);
        assert forall i :: 0 <= i < |h| ==> (h + [a])[i] == h[i];
      }
    }
  }

  lemma {:induction false} HistoryRises(l: Limits, attempts: seq<Attempt>)
    requires Rising(attempts)
    ensures Rising(History(l, attempts))
    ensures attempts != [] ==> Extends(History(l, attempts), attempts[|attempts| - 1])
  {
    if attempts != [] {
      HistoryRises(l, attempts[..|attempts| - 1]);
    }
  }

  lemma AdmittedStaysBacked(l: Limits, s: State, h: seq<Attempt>, a: Attempt, mark: nat) returns (next: nat)
    requires ValidLimits(l) && WindowBacked(l, s, h) && CyclesBacked(l, s, h, mark) && Extends(h, a) && IsAdmitted(l, s, a)
    ensures WindowBacked(l, After(l, s, a), h + [a]) && CyclesBacked(l, After(l, s, a), h + [a], next)
  {
    next := mark;
    EnforceStaysBacked(l, s, h, a.now, mark);
    if a.kind == Failure {
      FailureBacksWindow(l, Enforce(l, s, a.now).s, h, a);
      next := FailureBacksCycles(l, Enforce(l, s, a.now).s, h, a, mark);
    } else {
      QuietStaysBacked(l, Enforce(l, s, a.now).s, h, a, mark);
    }
  }

  /** A run's history justifies the state the run ends in. */
  lemma {:induction false} RunsAreBacked(l: Limits, attempts: seq<Attempt>) returns (mark: nat)
    requires ValidLimits(l) && Rising(attempts)
    ensures WindowBacked(l, Run(l, attempts), History(l, attempts))
    ensures CyclesBacked(l, Run(l, attempts), History(l, attempts), mark)
  {
    mark := 0;
    if attempts != [] {
      var p, a := attempts[..|attempts| - 1], attempts[|attempts| - 1];
      mark := RunsAreBacked(l, p);
      if IsAdmitted(l, Run(l, p), a) {
        HistoryRises(l, attempts);
        assert Extends(History(l, p), a) by {
          var h, g := History(l, p), History(l, attempts);
          assert forall i :: 0 <= i < |h| ==> h[i] == g[i];
        }
        mark := AdmittedStaysBacked(l, Run(l, p), History(l, p), a, mark);
      }
    }
  }

  // ----- what a ban says, and how it ends -----

  predicate BannedNow(l: Limits, attempts: seq<Attempt>, a: Attempt) {
    && IsAdmitted(l, Run(l, attempts), a)
    && After(l, Run(l, attempts), a).Row?
    && After(l, Run(l, attempts), a).blockedAt == At(a.now)
  }

  /** Some failure of the last cycle window completed a first cycle, with that cycle's failures
      less than a window older; the failures of every other cycle a ban needs came after it, and
      no sign-in did. */
  ghost predicate JustifiesBan(l: Limits, h: seq<Attempt>, now: int) {
    && FailuresSince(h, now - l.cycleWindow - l.window + 2) >= l.banCycles * l.maxFailures
    && exists mark: nat :: mark < |h| && FirstCycleEnds(l, h, now, mark)
  }

  predicate FirstCycleEnds(l: Limits, h: seq<Attempt>, now: int, mark: nat)
    requires mark < |h|
  {
    && h[mark].kind == Failure && now - l.cycleWindow < h[mark].now
    && FailuresSince(h[..mark + 1], h[mark].now - l.window + 1) >= l.maxFailures
    && FailuresAfter(h, mark) >= (l.banCycles - 1) * l.maxFailures
    && forall i :: mark < i < |h| ==> h[i].kind != Success
  }

  /** Whenever an attempt bans an address, its history justifies the ban. */
  lemma BanIsSound(l: Limits, attempts: seq<Attempt>, a: Attempt)
    requires ValidLimits(l) && l.cycleWindow >= 1 && Rising(attempts + [a]) && BannedNow(l, attempts, a)
    ensures JustifiesBan(l, History(l, attempts + [a]), a.now)
  {
    var all := attempts + [a];
    assert all[..|attempts|] == attempts;
    var mark := RunsAreBacked(l, all);
    HistoryRises(l, all);
    BanDecision(l, Run(l, attempts), a);
    BannedStateJustified(l, Run(l, all), History(l, all), mark, a.now);
  }

  lemma ProductBelow(a: int, b: int, c: nat)
    requires a <= b
    ensures a * c <= b * c
  {
  }

  /** A sign-in between two cycles is enough to spare the address. */
  lemma SignInBetweenCycles()
    ensures !JustifiesBan(Limits(1, 15, 2, 120, 15, 1440), [Attempt(0, Failure), Attempt(20, Success), Attempt(40, Failure)], 40)
  {
    var l, h := Limits(1, 15, 2, 120, 15, 1440), [Attempt(0, Failure), Attempt(20, Success), Attempt(40, Failure)];
    forall mark: nat | mark < |h| ensures !FirstCycleEnds(l, h, 40, mark) {
      assert h[1].kind == Success;
    }
  }

  predicate DecidesBan(l: Limits, t: State, now: int) {
    && t.Row? && t.cycles >= l.banCycles && t.cycleStart.At? && t.cycleStart.t > now - l.cycleWindow
    && !(t.lastSuccess.At? && t.lastSuccess.t >= t.cycleStart.t)
  }

  lemma BanDecision(l: Limits, s: State, a: Attempt)
    requires l.cycleWindow >= 1 && IsAdmitted(l, s, a) && After(l, s, a).Row? && After(l, s, a).blockedAt == At(a.now)
    ensures DecidesBan(l, After(l, s, a), a.now)
  {
  }

  lemma BannedStateJustified(l: Limits, t: State, h: seq<Attempt>, mark: nat, now: int)
    requires CyclesBacked(l, t, h, mark) && Rising(h) && DecidesBan(l, t, now)
    ensures JustifiesBan(l, h, now)
  {
    EarlierCountsMore(h, t.cycleStart.t - l.window + 1, now - l.cycleWindow - l.window + 2);
    ProductBelow(l.banCycles, t.cycles, l.maxFailures);
    ProductBelow(l.banCycles - 1, t.cycles - 1, l.maxFailures);
    assert FirstCycleEnds(l, h, now, mark);
  }

  /** The moment from which an address is admitted again; none if it already is. */
  function EndsAt(l: Limits, s: State): Stamp {
    if s.NoRow? then Never
    else if s.blockedAt.At? then At(s.blockedAt.t + l.blockFor)
    else s.lockedUntil
  }

  /** An attempt is refused exactly before that moment, if there is one. */
  lemma AdmittedExactly(l: Limits, s: State, a: Attempt)
    requires s.Row? && s.blockedAt.At? ==> s.lockedUntil == Never
    ensures IsAdmitted(l, s, a) <==> EndsAt(l, s) == Never || a.now >= EndsAt(l, s).t
  {
  }

  function RunFrom(l: Limits, s: State, attempts: seq<Attempt>): State {
    if attempts == [] then s else After(l, RunFrom(l, s, attempts[..|attempts| - 1]), attempts[|attempts| - 1])
  }

  /** An attempt is refused exactly before that moment; refusals, however many, change
      nothing, so the moment never moves and the first attempt from then on is admitted. */
  lemma {:induction false} RefusalsEndOnTime(l: Limits, s: State, attempts: seq<Attempt>, a: Attempt)
    requires s.Row? && s.blockedAt.At? ==> s.lockedUntil == Never
    requires EndsAt(l, s).At? && forall i :: 0 <= i < |attempts| ==> attempts[i].now < EndsAt(l, s).t
    ensures RunFrom(l, s, attempts) == s
    ensures IsAdmitted(l, RunFrom(l, s, attempts), a) <==> a.now >= EndsAt(l, s).t
  {
    if attempts != [] {
      RefusalsEndOnTime(l, s, attempts[..|attempts| - 1], attempts[|attempts| - 1]);
    }
  }

  /** A ban carries no lock beside it, in every state a run can reach. */
  lemma {:induction false} BansStandAlone(l: Limits, attempts: seq<Attempt>)
    ensures Run(l, attempts).Row? && Run(l, attempts).blockedAt.At? ==> Run(l, attempts).lockedUntil == Never
  {
    if attempts != [] {
      BansStandAlone(l, attempts[..|attempts| - 1]);
    }
  }
}
