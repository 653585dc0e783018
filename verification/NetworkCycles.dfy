/** When the throttle of a network address acts: how failures fill a window, how long a filled
    window shuts the address out, and which of them ban it. */
module NetworkCycles {
  import opened Clock
  import opened NetworkThrottle

  // ----- a window filled -----

  /** An admitted failure that leaves no window in progress: it was the last a window holds. */
  predicate Fills(l: Limits, s: State, a: Attempt) {
    a.kind == Failure && IsAdmitted(l, s, a) && After(l, s, a).Row? && After(l, s, a).failed == 0
  }

  /** A filled window shuts the address out from that very failure: for the lockout, or for the
      time of a ban, and not a moment longer. */
  lemma FilledWindowShutsOut(l: Limits, s: State, a: Attempt, b: Attempt)
    requires ValidLimits(l) && Fills(l, s, a)
    ensures After(l, s, a).blockedAt == Never ==> (IsAdmitted(l, After(l, s, a), b) <==> b.now >= a.now + l.lockout)
    ensures After(l, s, a).blockedAt != Never ==> (IsAdmitted(l, After(l, s, a), b) <==> b.now >= a.now + l.blockFor)
  {
  }

  /** Failures, in order, within less than one window. */
  predicate Burst(l: Limits, fs: seq<Attempt>) {
    && fs != [] && Rising(fs) && fs[|fs| - 1].now < fs[0].now + l.window
    && forall i :: 0 <= i < |fs| ==> fs[i].kind == Failure
  }

  predicate FillsAt(l: Limits, s: State, fs: seq<Attempt>, k: nat) {
    k < |fs| && Fills(l, RunFrom(l, s, fs[..k]), fs[k])
  }

  /** A window is in progress, with nothing in the way of the next attempt. */
  predicate Counting(l: Limits, s: State) {
    s.Row? && s.blockedAt == Never && s.lockedUntil == Never && s.windowStart.At? && 1 <= s.failed < l.maxFailures
  }

  lemma RunFromLast(l: Limits, s: State, fs: seq<Attempt>, k: nat)
    requires k < |fs|
    ensures RunFrom(l, s, fs[..k + 1]) == After(l, RunFrom(l, s, fs[..k]), fs[k])
  {
    assert fs[..k + 1][..k] == fs[..k];
  }

  /** A failure that fills no window is counted, in the window in progress or in a new one. */
  lemma NotFilledIsCounted(l: Limits, s: State, a: Attempt)
    requires ValidLimits(l) && IsAdmitted(l, s, a) && a.kind == Failure && !Fills(l, s, a)
    ensures Counting(l, After(l, s, a)) && IsAdmitted(l, After(l, s, a), a)
    ensures Counting(l, s) ==> var r := After(l, s, a);
      if s.windowStart.t <= a.now - l.window then r.windowStart == At(a.now) && r.failed == 1
      else r.windowStart == s.windowStart && r.failed == s.failed + 1
  {
  }

  /** What is counted after `k` failures of a burst: all of them in the window they found, or from
      the `j`th on in the one that it started. */
  predicate CountedIn(l: Limits, r: State, fs: seq<Attempt>, k: nat, j: nat) {
    && j < k <= |fs| && Counting(l, r)
    && (r.failed >= k || (r.windowStart == At(fs[j].now) && r.failed == k - j && j < l.maxFailures))
  }

  lemma CountedNext(l: Limits, r: State, fs: seq<Attempt>, k: nat, j: nat) returns (next: nat)
    requires ValidLimits(l) && Burst(l, fs) && CountedIn(l, r, fs, k, j) && k < |fs| && !Fills(l, r, fs[k])
    ensures CountedIn(l, After(l, r, fs[k]), fs, k + 1, next)
  {
    assert IsAdmitted(l, r, fs[k]);
    NotFilledIsCounted(l, r, fs[k]);
    next := if r.windowStart.t <= fs[k].now - l.window then k else j;
  }

  /** Until one of them fills a window, every failure of a burst is admitted and counted. */
  lemma {:induction false} BurstIsCounted(l: Limits, s: State, fs: seq<Attempt>, k: nat) returns (j: nat, filled: nat)
    requires ValidLimits(l) && Burst(l, fs) && 1 <= k <= |fs| && IsAdmitted(l, s, fs[0])
    ensures FillsAt(l, s, fs, filled) || CountedIn(l, RunFrom(l, s, fs[..k]), fs, k, j)
  {
    filled, j := k - 1, 0;
    if k == 1 {
      assert RunFrom(l, s, fs[..0]) == s;
      if !FillsAt(l, s, fs, 0) {
        RunFromLast(l, s, fs, 0);
        NotFilledIsCounted(l, s, fs[0]);
      }
    } else {
      j, filled := BurstIsCounted(l, s, fs, k - 1);
      if !FillsAt(l, s, fs, filled) {
        filled := k - 1;
        if !FillsAt(l, s, fs, filled) {
          RunFromLast(l, s, fs, k - 1);
          j := CountedNext(l, RunFrom(l, s, fs[..k - 1]), fs, k - 1, j);
        }
      }
    }
  }

  /** A failure within the window in progress fills it exactly when it is its last. */
  lemma FillsExactly(l: Limits, r: State, a: Attempt)
    requires ValidLimits(l) && Counting(l, r) && a.kind == Failure && r.windowStart.t > a.now - l.window
    ensures Fills(l, r, a) <==> r.failed + 1 == l.maxFailures
  {
  }

  /** The next attempt starts a window of its own. */
  predicate NoWindow(l: Limits, s: State, now: int) {
    s.Row? ==> s.windowStart == Never || s.windowStart.t <= now - l.window
  }

  lemma FirstOfWindow(l: Limits, s: State, a: Attempt)
    requires ValidLimits(l) && IsAdmitted(l, s, a) && a.kind == Failure && NoWindow(l, s, a.now)
    ensures Fills(l, s, a) <==> l.maxFailures == 1
    ensures l.maxFailures > 1 ==> Counting(l, After(l, s, a)) && After(l, s, a).failed == 1 && After(l, s, a).windowStart == At(a.now)
  {
  }

  predicate CountsFresh(l: Limits, r: State, first: int, n: nat) {
    Counting(l, r) && r.failed == n && r.windowStart == At(first)
  }

  lemma FreshNext(l: Limits, r: State, a: Attempt, first: int, n: nat)
    requires ValidLimits(l) && CountsFresh(l, r, first, n) && n + 1 < l.maxFailures
    requires a.kind == Failure && a.now < first + l.window
    ensures CountsFresh(l, After(l, r, a), first, n + 1)
  {
    FillsExactly(l, r, a);
    NotFilledIsCounted(l, r, a);
  }

  lemma {:induction false} FreshWindowCounts(l: Limits, s: State, fs: seq<Attempt>, n: nat)
    requires ValidLimits(l) && Burst(l, fs) && 1 <= n < |fs| == l.maxFailures && IsAdmitted(l, s, fs[0]) && NoWindow(l, s, fs[0].now)
    ensures CountsFresh(l, RunFrom(l, s, fs[..n]), fs[0].now, n)
  {
    RunFromLast(l, s, fs, n - 1);
    if n == 1 {
      assert RunFrom(l, s, fs[..0]) == s;
      FirstOfWindow(l, s, fs[0]);
    } else {
      FreshWindowCounts(l, s, fs, n - 1);
      FreshNext(l, RunFrom(l, s, fs[..n - 1]), fs[n - 1], fs[0].now, n - 1);
    }
  }

  /** As many failures as a window holds, the first of them starting one, fill it with the last
      and with none before. */
  lemma FailuresFillWindow(l: Limits, s: State, fs: seq<Attempt>, k: nat)
    requires ValidLimits(l) && Burst(l, fs) && k < |fs| == l.maxFailures && IsAdmitted(l, s, fs[0]) && NoWindow(l, s, fs[0].now)
    ensures FillsAt(l, s, fs, k) <==> k == l.maxFailures - 1
  {
    if k == 0 {
      assert RunFrom(l, s, fs[..0]) == s;
      FirstOfWindow(l, s, fs[0]);
    } else {
      FreshWindowCounts(l, s, fs, k);
      FillsExactly(l, RunFrom(l, s, fs[..k]), fs[k]);
    }
  }

  /** Windows do not slide, so as many failures as one holds need not fill it; but one short of
      twice as many, in less than a window, always fill one. */
  lemma BurstFillsWindow(l: Limits, s: State, fs: seq<Attempt>) returns (k: nat)
    requires ValidLimits(l) && Burst(l, fs) && |fs| >= 2 * l.maxFailures - 1 && IsAdmitted(l, s, fs[0])
    ensures FillsAt(l, s, fs, k)
  {
    var j;
    j, k := BurstIsCounted(l, s, fs, 2 * l.maxFailures - 1);
  }

  /** Three failures within three moments that fill no window of three: the first of them still
      belongs to the window before. */
  lemma StraddlingFailuresPass()
    ensures var l, s := Limits(3, 15, 2, 120, 15, 1440), Row(1, 0, At(0), Never, Never, Never, Never);
      var fs := [Attempt(14, Failure), Attempt(15, Failure), Attempt(16, Failure)];
      Burst(l, fs) && IsAdmitted(l, RunFrom(l, s, fs), Attempt(17, Failure)) && forall k: nat :: !FillsAt(l, s, fs, k)
  {
    var l, s := Limits(3, 15, 2, 120, 15, 1440), Row(1, 0, At(0), Never, Never, Never, Never);
    var fs := [Attempt(14, Failure), Attempt(15, Failure), Attempt(16, Failure)];
    assert RunFrom(l, s, fs[..0]) == s;
    RunFromLast(l, s, fs, 0);
    RunFromLast(l, s, fs, 1);
    RunFromLast(l, s, fs, 2);
    assert fs[..3] == fs;
  }

  /** A sign-in forgives the run in progress: nothing shuts the address out afterwards, and it
      takes a whole new window of failures to. The cycles it has ended stay counted. */
  lemma SignInForgives(l: Limits, s: State, a: Attempt, b: Attempt)
    requires s.Row? && a.kind == Success && IsAdmitted(l, s, a)
    ensures var t := After(l, s, a);
      && IsAdmitted(l, t, b)
      && (b.kind == Failure && l.maxFailures > 1 ==> !Fills(l, t, b) && After(l, t, b).failed == 1)
      && t.cycles == (if s.blockedAt == Never then s.cycles else 0)
  {
  }

  // ----- cycles -----

  /** The last attempt of a run filled a window: it ended a cycle. */
  predicate EndsCycle(l: Limits, attempts: seq<Attempt>) {
    attempts != [] && Fills(l, Run(l, attempts[..|attempts| - 1]), attempts[|attempts| - 1])
  }

  predicate Lifted(l: Limits, s: State, a: Attempt) {
    s.Row? && s.blockedAt.At? && IsAdmitted(l, s, a)
  }

  /** Where the series of cycles in progress began, or -1: a cycle joins the series while its
      first is less than a cycle window old, and a ban that is lifted ends it. */
  function SeriesStart(l: Limits, attempts: seq<Attempt>): (m: int)
    ensures -1 <= m < |attempts|
  {
    if attempts == [] then -1
    else
      var n := |attempts| - 1;
      var m := if Lifted(l, Run(l, attempts[..n]), attempts[n]) then -1 else SeriesStart(l, attempts[..n]);
      if !EndsCycle(l, attempts) then m
      else if m >= 0 && attempts[n].now - attempts[m].now < l.cycleWindow then m
      else n
  }

  /** How many cycles ended at attempt `from` or later. */
  function CyclesFrom(l: Limits, attempts: seq<Attempt>, from: int): nat {
    if |attempts| <= from || attempts == [] then 0
    else CyclesFrom(l, attempts[..|attempts| - 1], from) + if EndsCycle(l, attempts) then 1 else 0
  }

  /** Somebody signed in from the address, and it had a row to note it in. */
  predicate SignedIn(l: Limits, attempts: seq<Attempt>, i: nat) {
    && i < |attempts| && attempts[i].kind == Success
    && IsAdmitted(l, Run(l, attempts[..i]), attempts[i]) && Run(l, attempts[..i]).Row?
  }

  /** What the row says of cycles is what happened. */
  predicate SeriesCounted(l: Limits, attempts: seq<Attempt>) {
    var s, m := Run(l, attempts), SeriesStart(l, attempts);
    if s.NoRow? || s.cycleStart == Never then m == -1 && (s.Row? ==> s.cycles == 0)
    else m >= 0 && s.cycleStart == At(attempts[m].now) && s.cycles == CyclesFrom(l, attempts, m)
  }

  lemma NoneBeyond(l: Limits, attempts: seq<Attempt>, from: int)
    requires from >= |attempts|
    ensures CyclesFrom(l, attempts, from) == 0
  {
  }

  /** The series a state is in, as an attempt finds it. */
  function StartFound(l: Limits, s: State, a: Attempt): Stamp {
    if s.NoRow? || Lifted(l, s, a) then Never else s.cycleStart
  }

  function CyclesFound(l: Limits, s: State, a: Attempt): nat {
    if s.NoRow? || Lifted(l, s, a) then 0 else s.cycles
  }

  lemma CyclesNext(l: Limits, s: State, a: Attempt)
    requires ValidLimits(l)
    ensures !Fills(l, s, a) && After(l, s, a).NoRow? ==> s.NoRow?
    ensures !Fills(l, s, a) && After(l, s, a).Row? ==>
      After(l, s, a).cycleStart == StartFound(l, s, a) && After(l, s, a).cycles == CyclesFound(l, s, a)
    ensures Fills(l, s, a) ==>
      var found := StartFound(l, s, a);
      if found.At? && a.now - found.t < l.cycleWindow
      then After(l, s, a).cycleStart == found && After(l, s, a).cycles == CyclesFound(l, s, a) + 1
      else After(l, s, a).cycleStart == At(a.now) && After(l, s, a).cycles == 1
  {
  }

  lemma {:induction false} SeriesIsCounted(l: Limits, attempts: seq<Attempt>)
    requires ValidLimits(l)
    ensures SeriesCounted(l, attempts)
  {
    if attempts != [] {
      var n := |attempts| - 1;
      SeriesIsCounted(l, attempts[..n]);
      NoneBeyond(l, attempts[..n], n);
      CyclesNext(l, Run(l, attempts[..n]), attempts[n]);
    }
  }

  /** The last sign-in the row remembers is the latest there was. */
  lemma {:induction false} SignInIsNoted(l: Limits, attempts: seq<Attempt>, from: int)
    requires Rising(attempts)
    ensures NotedSince(Run(l, attempts), from) <==> exists i: nat :: SignedIn(l, attempts, i) && attempts[i].now >= from
  {
    if attempts != [] {
      var n := |attempts| - 1;
      var p := attempts[..n];
      SignInIsNoted(l, p, from);
      forall i: nat | i < n ensures SignedIn(l, attempts, i) <==> SignedIn(l, p, i) {
        assert attempts[..i] == p[..i];
      }
      NotedNext(l, Run(l, p), attempts[n], from);
      if NotedSince(Run(l, p), from) && SignedIn(l, attempts, n) {
        var i: nat :| SignedIn(l, p, i) && p[i].now >= from;
      }
    }
  }

  predicate NotedSince(s: State, from: int) {
    s.Row? && s.lastSuccess.At? && s.lastSuccess.t >= from
  }

  lemma NotedNext(l: Limits, s: State, a: Attempt, from: int)
    ensures NotedSince(After(l, s, a), from)
       <==> if a.kind == Success && IsAdmitted(l, s, a) && s.Row? then a.now >= from else NotedSince(s, from)
  {
  }

  lemma BanDecided(l: Limits, s: State, a: Attempt)
    requires ValidLimits(l) && Fills(l, s, a)
    ensures var t := After(l, s, a);
      t.cycleStart.At? && (t.blockedAt.At? <==> t.cycles >= l.banCycles && !NotedSince(t, t.cycleStart.t))
  {
  }

  /** The failure that ends a cycle bans the address exactly when enough cycles have ended
      since the series began and nobody signed in since then. */
  lemma BansExactly(l: Limits, attempts: seq<Attempt>)
    requires ValidLimits(l) && Rising(attempts) && EndsCycle(l, attempts)
    ensures var m := SeriesStart(l, attempts);
      && m >= 0
      && (Run(l, attempts).blockedAt.At?
          <==> CyclesFrom(l, attempts, m) >= l.banCycles && forall i: nat :: SignedIn(l, attempts, i) ==> attempts[i].now < attempts[m].now)
  {
    SeriesIsCounted(l, attempts);
    SignInIsNoted(l, attempts, attempts[SeriesStart(l, attempts)].now);
    BanDecided(l, Run(l, attempts[..|attempts| - 1]), attempts[|attempts| - 1]);
  }

  /** An attempt that bans is a failure that ends a cycle. */
  lemma BanningEndsCycle(l: Limits, attempts: seq<Attempt>, a: Attempt)
    requires ValidLimits(l)
    ensures BannedNow(l, attempts, a) <==> EndsCycle(l, attempts + [a]) && Run(l, attempts + [a]).blockedAt.At?
  {
    assert (attempts + [a])[..|attempts|] == attempts;
  }
}
