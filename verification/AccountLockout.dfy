/** The lockout of one account: a counter, the window it belongs to, and the lock. */
module AccountLockout {
  import opened Clock

  datatype Limits = Limits(maxFailed: nat, lockout: nat, maxLockout: nat, window: nat)

  predicate ValidLimits(l: Limits) {
    l.maxFailed >= 1 && l.lockout >= 1 && l.maxLockout >= 1 && l.window >= 1
  }

  datatype State = State(count: nat, lockedUntil: Stamp, windowStart: Stamp)

  const CLEAR: State := State(0, Never, Never)

  function Pow2(n: nat): (r: nat)
    ensures r >= 1
  {
    if n == 0 then 1 else 2 * Pow2(n - 1)
  }

  /** How long the lock after this many failures lasts: doubled for every further
      `maxFailed` of them, up to a cap. */
  function LockFor(l: Limits, count: nat): nat
    requires ValidLimits(l)
  {
    var lockouts := if count / l.maxFailed > 1 then count / l.maxFailed else 1;
    var wanted := l.lockout * Pow2(lockouts - 1);
    if wanted < l.maxLockout then wanted else l.maxLockout
  }

  /** The shortest lock there is. */
  function FirstLock(l: Limits): nat {
    if l.lockout < l.maxLockout then l.lockout else l.maxLockout
  }

  predicate IsLocked(s: State, now: int) {
    s.lockedUntil.At? && s.lockedUntil.t > now
  }

  predicate Expired(l: Limits, s: State, now: int) {
    s.windowStart == Never || s.windowStart.t <= now - l.window
  }

  /** One wrong password. While the account is locked it is not counted. */
  function Wrong(l: Limits, s: State, now: int): State
    requires ValidLimits(l)
  {
    if IsLocked(s, now) then s
    else
      var restart := Expired(l, s, now);
      var count := (if restart then 0 else s.count) + 1;
      State(count,
            if count >= l.maxFailed then At(now + LockFor(l, count)) else s.lockedUntil,
            if restart then At(now) else s.windowStart)
  }

  /** The account row, as sign-in attempts change it. */
  class Account {
    const limits: Limits
    var failedLoginCount: nat
    var lockedUntil: Stamp
    var windowStartedAt: Stamp

    constructor (limits: Limits)
      ensures this.limits == limits && Current() == CLEAR
    {
      this.limits := limits;
      failedLoginCount, lockedUntil, windowStartedAt := 0, Never, Never;
    }

    function Current(): State
      reads this
    {
      State(failedLoginCount, lockedUntil, windowStartedAt)
    }

    /** The failing path of a sign-in; `lockedFor` is what the log entry reports. */
    method RecordFailure(now: int) returns (lockedFor: nat)
      requires ValidLimits(limits)
      modifies this
      ensures Current() == Wrong(limits, old(Current()), now)
      ensures lockedFor == if Current() != old(Current()) && failedLoginCount >= limits.maxFailed
                           then LockFor(limits, failedLoginCount) else 0
    {
      lockedFor := 0;
      var alreadyLocked := lockedUntil.At? && lockedUntil.t > now;
      if !alreadyLocked {
        if windowStartedAt == Never || windowStartedAt.t <= now - limits.window {
          failedLoginCount := 0;
          windowStartedAt := At(now);
        }
        failedLoginCount := failedLoginCount + 1;
        if failedLoginCount >= limits.maxFailed {
          lockedFor := LockFor(limits, failedLoginCount);
          lockedUntil := At(now + lockedFor);
        }
        LockForBounds(limits, failedLoginCount);
      }
    }

    /** A successful sign-in, a reinstatement, or a new password. */
    method ClearLockout()
      modifies this
      ensures Current() == CLEAR
    {
      failedLoginCount := 0;
      lockedUntil := Never;
      windowStartedAt := Never;
    }
  }

  lemma LockForBounds(l: Limits, count: nat)
    requires ValidLimits(l)
    ensures LockFor(l, count) >= FirstLock(l) >= 1
    ensures count < 2 * l.maxFailed ==> LockFor(l, count) == FirstLock(l)
  {
  }

  // ----- what links the counter to the clock -----

  /** Each failure past the threshold cost at least one lock inside the window. */
  predicate Paced(l: Limits, s: State)
    requires ValidLimits(l)
  {
    && (s.windowStart == Never ==> s.count == 0)
    && (s.count > l.maxFailed ==> (s.count - l.maxFailed) * FirstLock(l) < l.window)
    && (s.count >= l.maxFailed ==>
          s.lockedUntil.At? && s.windowStart.At?
          && s.lockedUntil.t >= s.windowStart.t + (s.count - l.maxFailed + 1) * FirstLock(l))
  }

  lemma WrongStaysPaced(l: Limits, s: State, now: int)
    requires ValidLimits(l) && Paced(l, s)
    requires s.windowStart.At? ==> s.windowStart.t <= now
    ensures Paced(l, Wrong(l, s, now))
  {
    if !IsLocked(s, now) {
      var t := Wrong(l, s, now);
      LockForBounds(l, t.count);
      if t.count > l.maxFailed && !Expired(l, s, now) {
        assert now >= s.lockedUntil.t;
        assert (t.count - l.maxFailed + 1) * FirstLock(l) == (s.count - l.maxFailed + 1) * FirstLock(l) + FirstLock(l);
      } else if t.count == l.maxFailed {
        assert (t.count - l.maxFailed + 1) * FirstLock(l) == FirstLock(l);
      }
    }
  }

  datatype Event = WrongPassword(now: int) | Cleared(now: int)

  function Step(l: Limits, s: State, e: Event): State
    requires ValidLimits(l)
  {
    match e
    case WrongPassword(now) => Wrong(l, s, now)
    case Cleared(_) => CLEAR
  }

  function Run(l: Limits, s: State, events: seq<Event>): State
    requires ValidLimits(l)
  {
    if events == [] then s else Step(l, Run(l, s, events[..|events| - 1]), events[|events| - 1])
  }

  predicate Rising(events: seq<Event>, start: int) {
    && (forall i :: 0 <= i < |events| ==> start <= events[i].now)
    && (forall i, j :: 0 <= i < j < |events| ==> events[i].now <= events[j].now)
  }

  function EndOf(events: seq<Event>, start: int): int {
    if events == [] then start else events[|events| - 1].now
  }

  /** After any run, the count past the threshold, in locks, fits inside the window. */
  lemma {:induction false} RunsStayPaced(l: Limits, s: State, events: seq<Event>, start: int)
    requires ValidLimits(l) && Rising(events, start)
    requires Paced(l, s) && (s.windowStart.At? ==> s.windowStart.t <= start)
    ensures Paced(l, Run(l, s, events))
    ensures Run(l, s, events).windowStart.At? ==> Run(l, s, events).windowStart.t <= EndOf(events, start)
  {
    if events != [] {
      var p := events[..|events| - 1];
      RunsStayPaced(l, s, p, start);
      if events[|p|].WrongPassword? {
        WrongStaysPaced(l, Run(l, s, p), events[|p|].now);
      }
    }
  }

  // ----- when the escalation can happen at all -----

  /** `n` times `c`, by addition. */
  function Times(n: nat, c: nat): nat {
    if n == 0 then 0 else Times(n - 1, c) + c
  }

  lemma {:induction false} TimesIs(n: nat, c: nat)
    ensures Times(n, c) == n * c
  {
    if n > 0 {
      TimesIs(n - 1, c);
    }
  }

  lemma {:induction false} TimesGrows(m: nat, n: nat, c: nat)
    requires m <= n
    ensures Times(m, c) <= Times(n, c)
  {
    if m < n {
      TimesGrows(m, n - 1, c);
    }
  }

  /** When the `n`th failure comes, as fast as the locks allow: the first `maxFailed` at
      once, then one at the end of each lock. */
  function Moment(l: Limits, n: nat): nat {
    if n <= l.maxFailed then 0 else Times(n - l.maxFailed, FirstLock(l))
  }

  function Persistent(l: Limits, n: nat): (events: seq<Event>)
    ensures |events| == n
    ensures forall i :: 0 <= i < n ==> events[i] == WrongPassword(Moment(l, i + 1))
  {
    seq(n, i requires 0 <= i < n => WrongPassword(Moment(l, i + 1)))
  }

  lemma PersistentRising(l: Limits, n: nat)
    ensures Rising(Persistent(l, n), 0)
  {
    var events := Persistent(l, n);
    forall i, j | 0 <= i < j < n ensures events[i].now <= events[j].now {
      if i + 1 > l.maxFailed {
        TimesGrows(i + 1 - l.maxFailed, j + 1 - l.maxFailed, FirstLock(l));
      }
    }
  }

  /** Where those failures leave the account. */
  predicate Persisted(l: Limits, s: State, n: nat)
    requires ValidLimits(l)
  {
    && s.count == n
    && (if n == 0 then s.windowStart == Never else s.windowStart == At(0))
    && (n < l.maxFailed ==> s.lockedUntil == Never)
    && (l.maxFailed <= n < 2 * l.maxFailed ==> s.lockedUntil == At(Times(n - l.maxFailed + 1, FirstLock(l))))
  }

  lemma PersistsOnce(l: Limits, s: State, n: nat)
    requires ValidLimits(l) && Times(l.maxFailed, FirstLock(l)) < l.window && 0 < n <= 2 * l.maxFailed
    requires Persisted(l, s, n - 1)
    ensures Persisted(l, Wrong(l, s, Moment(l, n)), n)
  {
    LockForBounds(l, n);
    if n > l.maxFailed {
      TimesGrows(n - l.maxFailed, l.maxFailed, FirstLock(l));
    }
  }

  lemma {:induction false} PersistentCounts(l: Limits, n: nat)
    requires ValidLimits(l) && Times(l.maxFailed, FirstLock(l)) < l.window && n <= 2 * l.maxFailed
    ensures Persisted(l, Run(l, CLEAR, Persistent(l, n)), n)
  {
    if n > 0 {
      PersistentCounts(l, n - 1);
      assert Persistent(l, n)[..n - 1] == Persistent(l, n - 1);
      PersistsOnce(l, Run(l, CLEAR, Persistent(l, n - 1)), n);
    }
  }

  lemma ProductBelow(a: nat, b: nat, c: nat)
    ensures a <= b ==> a * c <= b * c
  {
  }

  /** The count can reach twice the threshold exactly when `maxFailed` of the shortest locks
      fit inside the window. */
  lemma TwiceReachable(l: Limits)
    requires ValidLimits(l)
    ensures (exists events :: Rising(events, 0) && Run(l, CLEAR, events).count >= 2 * l.maxFailed)
       <==> l.maxFailed * FirstLock(l) < l.window
  {
    if events :| Rising(events, 0) && Run(l, CLEAR, events).count >= 2 * l.maxFailed {
      RunsStayPaced(l, CLEAR, events, 0);
      var count := Run(l, CLEAR, events).count;
      ProductBelow(l.maxFailed, count - l.maxFailed, FirstLock(l));
    }
    if l.maxFailed * FirstLock(l) < l.window {
      TimesIs(l.maxFailed, FirstLock(l));
      PersistentRising(l, 2 * l.maxFailed);
      PersistentCounts(l, 2 * l.maxFailed);
      assert Run(l, CLEAR, Persistent(l, 2 * l.maxFailed)).count >= 2 * l.maxFailed;
    }
  }

  /** A count gives a longer lock than the first only from twice the threshold on, and only when
      the cap leaves room for one. */
  lemma LongerExactly(l: Limits, count: nat)
    requires ValidLimits(l)
    ensures LockFor(l, count) > FirstLock(l) <==> count >= 2 * l.maxFailed && l.lockout < l.maxLockout
  {
    LockForBounds(l, count);
    if count >= 2 * l.maxFailed {
      var lockouts := count / l.maxFailed;
      TwiceAtLeast(count, l.maxFailed);
      assert Pow2(lockouts - 1) == 2 * Pow2(lockouts - 2);
      ProductBelow(2, Pow2(lockouts - 1), l.lockout);
    }
  }

  /** The first lock is the base, each further `maxFailed` failures double it, and the cap ends
      that. */
  lemma LockDoubles(l: Limits, count: nat)
    requires ValidLimits(l)
    ensures count < 2 * l.maxFailed ==> LockFor(l, count) == if l.lockout < l.maxLockout then l.lockout else l.maxLockout
    ensures count >= l.maxFailed ==>
      LockFor(l, count + l.maxFailed) == if 2 * LockFor(l, count) < l.maxLockout then 2 * LockFor(l, count) else l.maxLockout
  {
    LockForBounds(l, count);
    if count >= l.maxFailed {
      OneMoreRound(count, l.maxFailed);
      Doubled(l.lockout, count / l.maxFailed);
      RoundsOf(l, count);
      RoundsOf(l, count + l.maxFailed);
    }
  }

  lemma RoundsOf(l: Limits, count: nat)
    requires ValidLimits(l) && count / l.maxFailed >= 1
    ensures var wanted := l.lockout * Pow2(count / l.maxFailed - 1);
      LockFor(l, count) == if wanted < l.maxLockout then wanted else l.maxLockout
  {
  }

  lemma OneMoreRound(a: nat, b: nat)
    requires a >= b >= 1
    ensures (a + b) / b == a / b + 1 && a / b >= 1
  {
    var q, r := a / b, (a + b) / b;
    assert (q + 1) * b == q * b + b;
    Quotient(q + 1, a + b, b);
    assert (r - 1) * b == r * b - b;
    Quotient(r - 1, a, b);
    Quotient(1, a, b);
  }

  lemma Doubled(a: nat, n: nat)
    requires n >= 1
    ensures a * Pow2(n) == 2 * (a * Pow2(n - 1))
  {
    var p := Pow2(n - 1);
    assert Pow2(n) == 2 * p;
    assert a * (2 * p) == 2 * (a * p);
  }

  lemma TwiceAtLeast(a: nat, b: nat)
    requires b >= 1 && a >= 2 * b
    ensures a / b >= 2
  {
    Quotient(2, a, b);
  }

  /** A longer lock than the first can be reached exactly when the cap leaves room for one and
      `maxFailed` of the first locks fit inside the window. */
  lemma EscalationReachable(l: Limits)
    requires ValidLimits(l)
    ensures (exists events :: Rising(events, 0) && LockFor(l, Run(l, CLEAR, events).count) > FirstLock(l))
       <==> l.lockout < l.maxLockout && l.maxFailed * FirstLock(l) < l.window
  {
    TwiceReachable(l);
    if events :| Rising(events, 0) && LockFor(l, Run(l, CLEAR, events).count) > FirstLock(l) {
      LongerExactly(l, Run(l, CLEAR, events).count);
    }
    if l.lockout < l.maxLockout && l.maxFailed * FirstLock(l) < l.window {
      var events :| Rising(events, 0) && Run(l, CLEAR, events).count >= 2 * l.maxFailed;
      LongerExactly(l, Run(l, CLEAR, events).count);
    }
  }

  /** The shipped settings, on a clock of `minute` units to the minute. */
  function Shipped(minute: nat): Limits {
    Limits(5, 15 * minute, 1440 * minute, 60 * minute)
  }

  /** At the shipped settings, however fine the clock, no run counts past eight, and every lock
      is fifteen minutes. */
  lemma DefaultsNeverEscalate(minute: nat, events: seq<Event>, start: int)
    requires minute >= 1 && Rising(events, start)
    ensures var s := Run(Shipped(minute), CLEAR, events);
      s.count <= 8 && forall count :: 1 <= count <= s.count ==> LockFor(Shipped(minute), count) == 15 * minute
  {
    var l := Shipped(minute);
    RunsStayPaced(l, CLEAR, events, start);
    var count := Run(l, CLEAR, events).count;
    if count >= 9 {
      ProductBelow(4, count - 5, 15 * minute);
    }
    forall count: nat | count <= 8 ensures LockFor(l, count) == 15 * minute {
      assert Pow2(0) == 1;
    }
  }

  // ----- how many guesses are counted -----

  function PerWindow(l: Limits): nat
    requires ValidLimits(l)
  {
    l.maxFailed + (l.window - 1) / FirstLock(l)
  }

  lemma CountFitsWindow(l: Limits, s: State)
    requires ValidLimits(l) && Paced(l, s)
    ensures s.count <= PerWindow(l)
  {
    if s.count > l.maxFailed {
      Quotient(s.count - l.maxFailed, l.window - 1, FirstLock(l));
    }
  }

  lemma Quotient(a: nat, b: nat, c: nat)
    requires c >= 1 && a * c <= b
    ensures a <= b / c
  {
    ProductBelow(b / c + 1, a, c);
    assert (b / c + 1) * c == b / c * c + c;
  }

  /** The wrong passwords of a run that were counted. */
  function Counted(l: Limits, s: State, events: seq<Event>): nat
    requires ValidLimits(l)
  {
    if events == [] then 0
    else
      var p := events[..|events| - 1];
      var e := events[|events| - 1];
      Counted(l, s, p) + if e.WrongPassword? && !IsLocked(Run(l, s, p), e.now) then 1 else 0
  }

  /** Which of a run's events those are: the wrong passwords that met no lock. */
  function Guesses(l: Limits, s: State, events: seq<Event>): set<nat>
    requires ValidLimits(l)
  {
    set i: nat | i < |events| && events[i].WrongPassword? && !IsLocked(Run(l, s, events[..i]), events[i].now)
  }

  lemma {:induction false} CountedAreGuesses(l: Limits, s: State, events: seq<Event>)
    requires ValidLimits(l)
    ensures Counted(l, s, events) == |Guesses(l, s, events)|
  {
    if events != [] {
      var n := |events| - 1;
      CountedAreGuesses(l, s, events[..n]);
      LastGuess(l, s, events[..n], events[n]);
      assert events[..n] + [events[n]] == events;
    }
  }

  lemma LastGuess(l: Limits, s: State, front: seq<Event>, e: Event)
    requires ValidLimits(l)
    ensures |Guesses(l, s, front + [e])|
      == |Guesses(l, s, front)| + if e.WrongPassword? && !IsLocked(Run(l, s, front), e.now) then 1 else 0
  {
    var all := front + [e];
    assert forall i: nat :: i <= |front| ==> all[..i] == front[..i];
    assert front[..|front|] == front;
    if e.WrongPassword? && !IsLocked(Run(l, s, front), e.now) {
      assert Guesses(l, s, all) == Guesses(l, s, front) + {|front|};
    } else {
      assert Guesses(l, s, all) == Guesses(l, s, front);
    }
  }

  /** The windows a run opened. */
  function Opened(l: Limits, s: State, events: seq<Event>): nat
    requires ValidLimits(l)
  {
    if events == [] then 0
    else
      var p := events[..|events| - 1];
      var e := events[|events| - 1];
      var was := Run(l, s, p);
      Opened(l, s, p) + if e.WrongPassword? && !IsLocked(was, e.now) && Expired(l, was, e.now) then 1 else 0
  }

  /** Without a success, windows open at least one window apart. */
  lemma {:induction false} WindowsApart(l: Limits, s: State, events: seq<Event>, start: int)
    requires ValidLimits(l) && Rising(events, start)
    requires forall i :: 0 <= i < |events| ==> events[i].WrongPassword?
    ensures var w := Opened(l, s, events);
      w >= 1 ==> Run(l, s, events).windowStart.At? && Run(l, s, events).windowStart.t >= start + (w - 1) * l.window
                 && Run(l, s, events).windowStart.t <= EndOf(events, start)
  {
    if events != [] {
      var p := events[..|events| - 1];
      WindowsApart(l, s, p, start);
      var w := Opened(l, s, p);
      if w >= 1 {
        assert start + w * l.window == start + (w - 1) * l.window + l.window;
      }
    }
  }

  lemma {:induction false} CountedPerWindow(l: Limits, s: State, events: seq<Event>, start: int)
    requires ValidLimits(l) && Rising(events, start) && Paced(l, s) && (s.windowStart.At? ==> s.windowStart.t <= start)
    requires forall i :: 0 <= i < |events| ==> events[i].WrongPassword?
    ensures Counted(l, s, events) <= Times(Opened(l, s, events), PerWindow(l)) + Run(l, s, events).count
  {
    if events != [] {
      var p := events[..|events| - 1];
      CountedPerWindow(l, s, p, start);
      RunsStayPaced(l, s, p, start);
      CountFitsWindow(l, Run(l, s, p));
    }
  }

  lemma WindowsThatFit(l: Limits, s: State, events: seq<Event>, start: int)
    requires ValidLimits(l) && Rising(events, start)
    requires forall i :: 0 <= i < |events| ==> events[i].WrongPassword?
    ensures EndOf(events, start) >= start
    ensures Opened(l, s, events) <= (EndOf(events, start) - start) / l.window + 1
  {
    WindowsApart(l, s, events, start);
    var w := Opened(l, s, events);
    if w >= 1 {
      Quotient(w - 1, EndOf(events, start) - start, l.window);
    }
  }

  /** Over any stretch of time without a success, the guesses counted against an account
      are at most one window's worth for each window that fits, and two more. */
  lemma GuessesAreBounded(l: Limits, s: State, events: seq<Event>, start: int)
    requires ValidLimits(l) && Rising(events, start) && Paced(l, s) && (s.windowStart.At? ==> s.windowStart.t <= start)
    requires forall i :: 0 <= i < |events| ==> events[i].WrongPassword?
    ensures EndOf(events, start) >= start
    ensures |Guesses(l, s, events)| <= ((EndOf(events, start) - start) / l.window + 2) * PerWindow(l)
  {
    CountedAreGuesses(l, s, events);
    CountedPerWindow(l, s, events, start);
    WindowsThatFit(l, s, events, start);
    RunsStayPaced(l, s, events, start);
    CountFitsWindow(l, Run(l, s, events));
    var fits := (EndOf(events, start) - start) / l.window + 2;
    TimesGrows(Opened(l, s, events) + 1, fits, PerWindow(l));
    TimesIs(fits, PerWindow(l));
  }
}
