/** Ending an account's sessions while refreshes are in flight. A refresh reads its token
    before it waits for the account lock, so the order of the two is up to the scheduler. */
module SessionProtocol {
  import opened Clock

  /** Clock units in the whole seconds that access tokens are stamped with. */
  const SECOND: int := 1_000_000

  datatype Origin = FromLogin | FromToken(id: nat)

  /** A refresh token row. `origin` is what it was issued for, and `login` the number of the
      sign-in it descends from; the service stores neither. */
  datatype Token = Token(createdAt: int, expiresAt: int, revoked: bool, origin: Origin, login: nat)

  /** What the account and its token table hold; a token's id is its place. */
  datatype Account = Account(tokens: seq<Token>, cutoff: Stamp, active: bool, logins: nat, access: seq<int>)

  predicate Live(t: Token) {
    !t.revoked
  }

  function RevokeAll(tokens: seq<Token>): (r: seq<Token>)
    ensures |r| == |tokens|
  {
    seq(|tokens|, i requires 0 <= i < |tokens| => tokens[i].(revoked := true))
  }

  function CountLive(tokens: seq<Token>): nat {
    if tokens == [] then 0 else CountLive(tokens[..|tokens| - 1]) + if Live(tokens[|tokens| - 1]) then 1 else 0
  }

  /** Revoke every refresh token and refuse every access token already issued. */
  function EndAll(a: Account, now: int): Account {
    a.(tokens := RevokeAll(a.tokens), cutoff := At(now))
  }

  /** The check on the token row, made before the lock is taken. */
  predicate Presentable(a: Account, id: nat, now: int) {
    id < |a.tokens| && Live(a.tokens[id]) && a.tokens[id].expiresAt > now
  }

  /** The check made once the lock is held; it does not look at `revoked` again. */
  predicate Exchangeable(a: Account, id: nat)
    requires id < |a.tokens|
  {
    a.active && !(a.cutoff.At? && a.tokens[id].createdAt < a.cutoff.t)
  }

  /** Rotate: revoke the presented token and issue a new pair. */
  function Exchange(a: Account, id: nat, now: int, lifetime: nat): Account
    requires id < |a.tokens|
  {
    if !Exchangeable(a, id) then a
    else a.(
      tokens := a.tokens[id := a.tokens[id].(revoked := true)] + [Token(now, now + lifetime, false, FromToken(id), a.tokens[id].login)],
      access := a.access + [now])
  }

  function LogIn(a: Account, now: int, lifetime: nat): Account {
    a.(tokens := a.tokens + [Token(now, now + lifetime, false, FromLogin, a.logins)], logins := a.logins + 1, access := a.access + [now])
  }

  /** Whether a request bearing an access token issued at `issuedAt` gets past the cutoff. */
  predicate AcceptsAccess(a: Account, issuedAt: int) {
    a.cutoff == Never || issuedAt / SECOND >= a.cutoff.t / SECOND
  }

  /** The rows, as the routes change them while they hold the account's lock. */
  class Sessions {
    const lifetime: nat
    var tokens: seq<Token>
    var validFrom: Stamp
    var active: bool
    var logins: nat
    var access: seq<int>

    constructor (lifetime: nat)
      ensures this.lifetime == lifetime && Current() == Account([], Never, true, 0, [])
    {
      this.lifetime := lifetime;
      tokens, validFrom, active, logins, access := [], Never, true, 0, [];
    }

    function Current(): Account
      reads this
    {
      Account(tokens, validFrom, active, logins, access)
    }

    /** End every session, and say how many were live. */
    method EndAllSessions(now: int) returns (live: nat)
      modifies this`tokens, this`validFrom
      ensures live == CountLive(old(tokens))
      ensures Current() == EndAll(old(Current()), now)
    {
      live := 0;
      for i := 0 to |tokens|
        invariant |tokens| == |old(tokens)|
        invariant live == CountLive(old(tokens)[..i])
        invariant forall j :: 0 <= j < |tokens| ==> tokens[j] == if j < i then old(tokens)[j].(revoked := true) else old(tokens)[j]
      {
        assert old(tokens)[..i + 1][..i] == old(tokens)[..i];
        if Live(tokens[i]) {
          live := live + 1;
          tokens := tokens[i := tokens[i].(revoked := true)];
        }
      }
      assert old(tokens)[..|tokens|] == old(tokens);
      validFrom := At(now);
    }

    /** The part of a refresh that runs under the lock. */
    method Refresh(id: nat, now: int) returns (exchanged: bool)
      requires id < |tokens|
      modifies this`tokens, this`access
      ensures exchanged == Exchangeable(old(Current()), id)
      ensures Current() == Exchange(old(Current()), id, now, lifetime)
    {
      var record := tokens[id];
      if !active {
        return false;
      }
      if validFrom != Never && record.createdAt < validFrom.t {
        return false;
      }
      tokens := tokens[id := record.(revoked := true)];
      tokens := tokens + [Token(now, now + lifetime, false, FromToken(id), record.login)];
      access := access + [now];
      return true;
    }

    /** The part of a successful sign-in that runs under the lock. */
    method IssueLogin(now: int)
      modifies this`tokens, this`logins, this`access
      ensures Current() == LogIn(old(Current()), now, lifetime)
    {
      tokens := tokens + [Token(now, now + lifetime, false, FromLogin, logins)];
      logins := logins + 1;
      access := access + [now];
    }
  }

  // ----- interleavings -----

  /** Where one request is. A refresh has read its token, holds the lock, has passed the check
      under it, or has made a token stamped `at` that is not committed yet; so for a sign-in. An
      ending holds the lock, has swept the first `n` tokens, or has moved the cutoff too; nobody
      else sees either until it commits. */
  datatype Request =
    | Idle
    | Presented(id: nat) | Checking(id: nat) | Passed(id: nat) | Rotated(id: nat, at: int)
    | LoggingIn | LoggedIn(at: int)
    | Ending | Swept(n: nat) | Moved(n: nat, cutoff: int)

  datatype Lock = Free | HeldBy(request: nat)

  /** `sealed`, `sealedAccess` and `sealedLogins` are how many refresh tokens, access tokens
      and sign-ins there were when an ending last committed. */
  datatype World = World(
    account: Account,
    lock: Lock,
    requests: map<nat, Request>,
    clock: int,
    sealed: nat,
    sealedAccess: nat,
    sealedLogins: nat)

  datatype Action =
    | Tick(to: int)
    | Present(r: nat, id: nat)
    | LockForRefresh(r: nat) | Check(r: nat) | Rotate(r: nat)
    | LockForLogin(r: nat) | Issue(r: nat)
    | LockForEnding(r: nat) | Sweep(r: nat) | MoveCutoff(r: nat)
    | Commit(r: nat)
    | LogOut(id: nat)
    | SetActive(active: bool)

  /** Whether requests wait for the account's lock, as the service has them do, or not. */
  datatype Mode = Locking | Unlocked

  function RequestOf(w: World, r: nat): Request {
    if r in w.requests then w.requests[r] else Idle
  }

  function Go(w: World, r: nat, next: Request): World {
    w.(requests := w.requests[r := next])
  }

  /** The lock is there for the taking. */
  predicate Open(mode: Mode, w: World) {
    mode == Unlocked || w.lock == Free
  }

  function Take(w: World, r: nat, next: Request): World {
    Go(w, r, next).(lock := HeldBy(r))
  }

  function Release(w: World, r: nat, account: Account): World {
    w.(account := account, lock := Free, requests := w.requests[r := Idle])
  }

  function CommitRefresh(a: Account, id: nat, at: int, lifetime: nat): Account
    requires id < |a.tokens|
  {
    a.(
      tokens := a.tokens[id := a.tokens[id].(revoked := true)] + [Token(at, at + lifetime, false, FromToken(id), a.tokens[id].login)],
      access := a.access + [at])
  }

  /** Only the tokens that were there to be swept are revoked. */
  function CommitEnding(a: Account, n: nat, cutoff: int): Account {
    a.(
      tokens := seq(|a.tokens|, i requires 0 <= i < |a.tokens| => if i < n then a.tokens[i].(revoked := true) else a.tokens[i]),
      cutoff := At(cutoff))
  }

  function Committed(w: World, r: nat, lifetime: nat): World {
    match RequestOf(w, r)
    case Rotated(id, at) =>
      if id < |w.account.tokens| then Release(w, r, CommitRefresh(w.account, id, at, lifetime)) else w
    case LoggedIn(at) => Release(w, r, LogIn(w.account, at, lifetime))
    case Moved(n, cutoff) =>
      Release(w, r, CommitEnding(w.account, n, cutoff)).(
        sealed := |w.account.tokens|, sealedAccess := |w.account.access|, sealedLogins := w.account.logins)
    case _ => w
  }

  /** One step of one request; a step that is not enabled changes nothing. */
  function Step(mode: Mode, w: World, a: Action, lifetime: nat): World {
    match a
    case Tick(t) => if t >= w.clock then w.(clock := t) else w
    case Present(r, id) =>
      if RequestOf(w, r) == Idle && Presentable(w.account, id, w.clock) then Go(w, r, Presented(id)) else w
    case LockForRefresh(r) =>
      if RequestOf(w, r).Presented? && Open(mode, w) then Take(w, r, Checking(RequestOf(w, r).id)) else w
    case Check(r) =>
      if !RequestOf(w, r).Checking? || RequestOf(w, r).id >= |w.account.tokens| then w
      else if Exchangeable(w.account, RequestOf(w, r).id) then Go(w, r, Passed(RequestOf(w, r).id))
      else Release(w, r, w.account)
    case Rotate(r) =>
      if RequestOf(w, r).Passed? then Go(w, r, Rotated(RequestOf(w, r).id, w.clock)) else w
    case LockForLogin(r) => if RequestOf(w, r) == Idle && Open(mode, w) then Take(w, r, LoggingIn) else w
    case Issue(r) => if RequestOf(w, r) == LoggingIn then Go(w, r, LoggedIn(w.clock)) else w
    case LockForEnding(r) => if RequestOf(w, r) == Idle && Open(mode, w) then Take(w, r, Ending) else w
    case Sweep(r) => if RequestOf(w, r) == Ending then Go(w, r, Swept(|w.account.tokens|)) else w
    case MoveCutoff(r) => if RequestOf(w, r).Swept? then Go(w, r, Moved(RequestOf(w, r).n, w.clock)) else w
    case Commit(r) => Committed(w, r, lifetime)
    case LogOut(id) =>
      if id < |w.account.tokens|
      then w.(account := w.account.(tokens := w.account.tokens[id := w.account.tokens[id].(revoked := true)]))
      else w
    case SetActive(active) => w.(account := w.account.(active := active))
  }

  const START: World := World(Account([], Never, true, 0, []), Free, map[], 0, 0, 0, 0)

  function Run(mode: Mode, actions: seq<Action>, lifetime: nat): World {
    if actions == [] then START else Step(mode, Run(mode, actions[..|actions| - 1], lifetime), actions[|actions| - 1], lifetime)
  }

  // ----- what the lock keeps -----

  predicate PastLock(q: Request) {
    !q.Idle? && !q.Presented?
  }

  /** Only the request that holds the lock is past it. */
  ghost predicate Exclusive(w: World) {
    forall r :: PastLock(RequestOf(w, r)) ==> w.lock == HeldBy(r)
  }

  predicate SinceCutoff(a: Account, t: int) {
    a.cutoff.At? ==> a.cutoff.t <= t
  }

  /** What a request relies on between its steps: a token that passed the check is not older than
      the cutoff, a stamp is not either, and a sweep has left no token out. */
  predicate Relies(w: World, q: Request) {
    match q
    case Presented(id) => id < |w.account.tokens|
    case Checking(id) => id < |w.account.tokens|
    case Passed(id) => id < |w.account.tokens| && SinceCutoff(w.account, w.account.tokens[id].createdAt)
    case Rotated(id, at) =>
      && id < |w.account.tokens| && SinceCutoff(w.account, w.account.tokens[id].createdAt)
      && SinceCutoff(w.account, at) && at <= w.clock
    case LoggedIn(at) => SinceCutoff(w.account, at) && at <= w.clock
    case Swept(n) => n == |w.account.tokens|
    case Moved(n, cutoff) =>
      && n == |w.account.tokens| && cutoff <= w.clock
      && (forall i :: 0 <= i < n ==> w.account.tokens[i].createdAt <= cutoff)
      && (forall i :: 0 <= i < |w.account.access| ==> w.account.access[i] <= cutoff)
    case _ => true
  }

  ghost predicate Reliable(w: World) {
    forall r :: Relies(w, RequestOf(w, r))
  }

  /** Times are in order around the cutoff, and every token of before the ending is revoked. */
  predicate Ordered(w: World) {
    && w.sealed <= |w.account.tokens| && w.sealedAccess <= |w.account.access| && w.sealedLogins <= w.account.logins
    && (forall i :: 0 <= i < |w.account.tokens| ==> w.account.tokens[i].createdAt <= w.clock)
    && (forall i :: 0 <= i < |w.account.access| ==> w.account.access[i] <= w.clock)
    && (w.account.cutoff == Never ==> w.sealed == 0 && w.sealedAccess == 0 && w.sealedLogins == 0)
    && (w.account.cutoff.At? ==>
          && w.account.cutoff.t <= w.clock
          && (forall i :: 0 <= i < w.sealed ==> w.account.tokens[i].createdAt <= w.account.cutoff.t && !Live(w.account.tokens[i]))
          && (forall i :: w.sealed <= i < |w.account.tokens| ==> w.account.tokens[i].createdAt >= w.account.cutoff.t)
          && (forall i :: 0 <= i < w.sealedAccess ==> w.account.access[i] <= w.account.cutoff.t)
          && (forall i :: w.sealedAccess <= i < |w.account.access| ==> w.account.access[i] >= w.account.cutoff.t))
  }

  /** A token of before the ending, stamped at the very instant of its cutoff. */
  predicate TiedToken(w: World, j: nat) {
    j < w.sealed && j < |w.account.tokens| && w.account.cutoff == At(w.account.tokens[j].createdAt)
  }

  /** No token of before the ending was exchanged since, but for one of the very instant of the
      cutoff; and what was issued since comes from a sign-in since, or from the sign-in such a
      token came from. */
  ghost predicate Traced(w: World) {
    forall i :: w.sealed <= i < |w.account.tokens| ==>
      && (w.account.tokens[i].origin.FromToken? && w.account.tokens[i].origin.id < w.sealed ==> TiedToken(w, w.account.tokens[i].origin.id))
      && (w.account.tokens[i].login < w.sealedLogins ==> SharesTie(w, w.account.tokens[i].login))
  }

  ghost predicate SharesTie(w: World, login: nat) {
    exists j: nat :: TiedToken(w, j) && w.account.tokens[j].login == login
  }

  ghost predicate Safe(w: World) {
    Exclusive(w) && Reliable(w) && Ordered(w) && Traced(w)
  }

  // ----- every step keeps it -----

  /** A request's step that commits nothing: the others, and what they rely on, stay. */
  lemma QuietStaysSafe(w: World, r: nat, next: Request, lock: Lock)
    requires Safe(w) && Relies(w, next)
    requires PastLock(next) ==> lock == HeldBy(r) && (w.lock == Free || w.lock == HeldBy(r))
    requires !PastLock(next) ==> if PastLock(RequestOf(w, r)) then lock == Free else lock == w.lock
    ensures Safe(Go(w, r, next).(lock := lock))
  {
    var v := Go(w, r, next).(lock := lock);
    forall q | q != r ensures RequestOf(v, q) == RequestOf(w, q) && Relies(v, RequestOf(v, q)) {
    }
    assert RequestOf(v, r) == next && Relies(v, next);
    SameTraces(w, v);
  }

  lemma SameTraces(w: World, v: World)
    requires Traced(w) && v.sealed == w.sealed && v.sealedLogins == w.sealedLogins && v.account.cutoff == w.account.cutoff
    requires |v.account.tokens| == |w.account.tokens|
    requires forall i :: 0 <= i < |w.account.tokens| ==> v.account.tokens[i] == w.account.tokens[i].(revoked := v.account.tokens[i].revoked)
    ensures Traced(v)
  {
    forall login | SharesTie(w, login) ensures SharesTie(v, login) {
      var j: nat :| TiedToken(w, j) && w.account.tokens[j].login == login;
      assert TiedToken(v, j);
    }
  }

  lemma TickStaysSafe(w: World, t: int)
    requires Safe(w) && t >= w.clock
    ensures Safe(w.(clock := t))
  {
    var v := w.(clock := t);
    forall q ensures RequestOf(v, q) == RequestOf(w, q) && Relies(v, RequestOf(v, q)) {
      assert Relies(w, RequestOf(w, q));
    }
    SameTraces(w, v);
  }

  lemma LogOutStaysSafe(w: World, id: nat)
    requires Safe(w) && id < |w.account.tokens|
    ensures Safe(w.(account := w.account.(tokens := w.account.tokens[id := w.account.tokens[id].(revoked := true)])))
  {
    var v := w.(account := w.account.(tokens := w.account.tokens[id := w.account.tokens[id].(revoked := true)]));
    forall q ensures RequestOf(v, q) == RequestOf(w, q) && Relies(v, RequestOf(v, q)) {
      assert Relies(w, RequestOf(w, q));
    }
    SameTraces(w, v);
  }

  lemma ActiveStaysSafe(w: World, active: bool)
    requires Safe(w)
    ensures Safe(w.(account := w.account.(active := active)))
  {
    var v := w.(account := w.account.(active := active));
    forall q ensures RequestOf(v, q) == RequestOf(w, q) && Relies(v, RequestOf(v, q)) {
      assert Relies(w, RequestOf(w, q));
    }
    SameTraces(w, v);
  }

  /** The holder commits: everyone else has at most read a token, and tokens only grow. */
  lemma OthersWait(w: World, r: nat, v: World)
    requires Exclusive(w) && Reliable(w) && PastLock(RequestOf(w, r))
    requires v.requests == w.requests[r := Idle] && |v.account.tokens| >= |w.account.tokens|
    ensures Exclusive(v) && Reliable(v)
  {
    forall q ensures !PastLock(RequestOf(v, q)) && Relies(v, RequestOf(v, q)) {
      assert Relies(w, RequestOf(w, q));
    }
  }

  /** One more token: a tie of before is a tie still. */
  lemma NewTokenTraced(w: World, v: World, t: Token)
    requires Traced(w) && Ordered(w) && v.sealed == w.sealed && v.sealedLogins == w.sealedLogins && v.account.cutoff == w.account.cutoff
    requires |v.account.tokens| == |w.account.tokens| + 1 && v.account.tokens[|w.account.tokens|] == t
    requires forall i :: 0 <= i < |w.account.tokens| ==> v.account.tokens[i] == w.account.tokens[i].(revoked := v.account.tokens[i].revoked)
    requires t.origin.FromToken? && t.origin.id < w.sealed ==> TiedToken(w, t.origin.id)
    requires t.login < w.sealedLogins ==> SharesTie(w, t.login)
    ensures Traced(v)
  {
    forall login | SharesTie(w, login) ensures SharesTie(v, login) {
      var j: nat :| TiedToken(w, j) && w.account.tokens[j].login == login;
      assert TiedToken(v, j);
    }
  }

  lemma RefreshStaysSafe(w: World, r: nat, id: nat, at: int, lifetime: nat)
    requires Safe(w) && RequestOf(w, r) == Rotated(id, at)
    ensures id < |w.account.tokens| && Safe(Release(w, r, CommitRefresh(w.account, id, at, lifetime)))
  {
    assert Relies(w, RequestOf(w, r));
    var v := Release(w, r, CommitRefresh(w.account, id, at, lifetime));
    OthersWait(w, r, v);
    if id < w.sealed {
      assert TiedToken(w, id);
      assert SharesTie(w, w.account.tokens[id].login);
    }
    NewTokenTraced(w, v, Token(at, at + lifetime, false, FromToken(id), w.account.tokens[id].login));
  }

  lemma LogInStaysSafe(w: World, r: nat, at: int, lifetime: nat)
    requires Safe(w) && RequestOf(w, r) == LoggedIn(at)
    ensures Safe(Release(w, r, LogIn(w.account, at, lifetime)))
  {
    assert Relies(w, RequestOf(w, r));
    var v := Release(w, r, LogIn(w.account, at, lifetime));
    OthersWait(w, r, v);
    NewTokenTraced(w, v, Token(at, at + lifetime, false, FromLogin, w.account.logins));
  }

  lemma EndingStaysSafe(w: World, r: nat, lifetime: nat)
    requires Safe(w) && RequestOf(w, r).Moved?
    ensures Safe(Committed(w, r, lifetime))
  {
    assert Relies(w, RequestOf(w, r));
    OthersWait(w, r, Committed(w, r, lifetime));
  }

  lemma CommitStaysSafe(w: World, r: nat, lifetime: nat)
    requires Safe(w)
    ensures Safe(Committed(w, r, lifetime))
  {
    match RequestOf(w, r)
    case Rotated(id, at) => RefreshStaysSafe(w, r, id, at, lifetime);
    case LoggedIn(at) => LogInStaysSafe(w, r, at, lifetime);
    case Moved(_, _) => EndingStaysSafe(w, r, lifetime);
    case _ =>
  }

  /** Taking the lock, and the steps under it that commit nothing. */
  lemma WorkStaysSafe(w: World, a: Action, lifetime: nat)
    requires Safe(w)
    requires a.Present? || a.LockForRefresh? || a.Check? || a.Rotate? || a.LockForLogin? || a.Issue?
      || a.LockForEnding? || a.Sweep? || a.MoveCutoff?
    ensures Safe(Step(Locking, w, a, lifetime))
  {
    var r := a.r;
    var v := Step(Locking, w, a, lifetime);
    assert Relies(w, RequestOf(w, r));
    if v != w {
      var next := RequestOf(v, r);
      assert v == Go(w, r, next).(lock := v.lock);
      assert Relies(w, next);
      QuietStaysSafe(w, r, next, v.lock);
    }
  }

  lemma StepStaysSafe(w: World, a: Action, lifetime: nat)
    requires Safe(w)
    ensures Safe(Step(Locking, w, a, lifetime))
  {
    match a
    case Tick(t) =>
      if t >= w.clock {
        TickStaysSafe(w, t);
      }
    case Commit(r) => CommitStaysSafe(w, r, lifetime);
    case LogOut(id) =>
      if id < |w.account.tokens| {
        LogOutStaysSafe(w, id);
      }
    case SetActive(active) => ActiveStaysSafe(w, active);
    case _ => WorkStaysSafe(w, a, lifetime);
  }

  lemma {:induction false} RunStaysSafe(actions: seq<Action>, lifetime: nat)
    ensures Safe(Run(Locking, actions, lifetime))
  {
    if actions != [] {
      RunStaysSafe(actions[..|actions| - 1], lifetime);
      StepStaysSafe(Run(Locking, actions[..|actions| - 1], lifetime), actions[|actions| - 1], lifetime);
    }
  }

  /** Sessions were ended at the very instant one of the tokens was issued. */
  ghost predicate Tied(w: World) {
    exists j: nat :: TiedToken(w, j)
  }

  /** In every interleaving of the steps of requests that wait for the lock: every token of
      before the last ending is revoked; none of them was exchanged since, but for one stamped at
      the cutoff itself; and every token issued since comes from a sign-in since, or from the
      sign-in such a token came from. Without such a tie every live token descends, exchange by
      exchange, from a sign-in since. */
  lemma InterleavingsAreSafe(actions: seq<Action>, lifetime: nat)
    ensures Safe(Run(Locking, actions, lifetime))
    ensures var w := Run(Locking, actions, lifetime);
      && (forall i :: 0 <= i < w.sealed ==> i < |w.account.tokens| && !Live(w.account.tokens[i]))
      && (forall i :: w.sealed <= i < |w.account.tokens| && w.account.tokens[i].origin.FromToken? && w.account.tokens[i].origin.id < w.sealed
            ==> w.account.cutoff == At(w.account.tokens[w.account.tokens[i].origin.id].createdAt))
      && (forall i :: w.sealed <= i < |w.account.tokens| ==> w.account.tokens[i].login >= w.sealedLogins || SharesTie(w, w.account.tokens[i].login))
      && (!Tied(w) ==> forall i :: 0 <= i < |w.account.tokens| && Live(w.account.tokens[i]) ==>
            w.account.tokens[i].login >= w.sealedLogins
            && (w.account.tokens[i].origin.FromToken? ==> w.account.tokens[i].origin.id >= w.sealed))
  {
    RunStaysSafe(actions, lifetime);
  }

  // ----- what the locked sections come to -----

  /** A refresh from its lock to its commit, with nothing of anyone else's in between. */
  function RefreshWhole(w: World, r: nat, lifetime: nat): World {
    var checked := Step(Locking, Step(Locking, w, LockForRefresh(r), lifetime), Check(r), lifetime);
    Step(Locking, Step(Locking, checked, Rotate(r), lifetime), Commit(r), lifetime)
  }

  function EndingWhole(w: World, r: nat, lifetime: nat): World {
    var swept := Step(Locking, Step(Locking, w, LockForEnding(r), lifetime), Sweep(r), lifetime);
    Step(Locking, Step(Locking, swept, MoveCutoff(r), lifetime), Commit(r), lifetime)
  }

  /** Run through at one instant, each is the one step its route is written as. */
  lemma RefreshAtOnce(w: World, r: nat, lifetime: nat)
    requires w.lock == Free && RequestOf(w, r).Presented? && RequestOf(w, r).id < |w.account.tokens|
    ensures RefreshWhole(w, r, lifetime) == Release(w, r, Exchange(w.account, RequestOf(w, r).id, w.clock, lifetime))
  {
    var id := RequestOf(w, r).id;
    var locked := Step(Locking, w, LockForRefresh(r), lifetime);
    var checked := Step(Locking, locked, Check(r), lifetime);
    if Exchangeable(w.account, id) {
      var rotated := Step(Locking, checked, Rotate(r), lifetime);
      assert RequestOf(rotated, r) == Rotated(id, w.clock);
    } else {
      assert RequestOf(checked, r) == Idle;
    }
  }

  lemma EndingAtOnce(w: World, r: nat, lifetime: nat)
    requires w.lock == Free && RequestOf(w, r) == Idle
    ensures EndingWhole(w, r, lifetime) == Release(w, r, EndAll(w.account, w.clock)).(
      sealed := |w.account.tokens|, sealedAccess := |w.account.access|, sealedLogins := w.account.logins)
  {
    var locked := Step(Locking, w, LockForEnding(r), lifetime);
    var swept := Step(Locking, locked, Sweep(r), lifetime);
    var moved := Step(Locking, swept, MoveCutoff(r), lifetime);
    assert RequestOf(moved, r) == Moved(|w.account.tokens|, w.clock);
    assert CommitEnding(w.account, |w.account.tokens|, w.clock).tokens == RevokeAll(w.account.tokens);
  }

  /** A refresh that reads its token before the ending and locks after it is refused exactly
      when the token is older than the cutoff. */
  lemma LateRefresh(actions: seq<Action>, lifetime: nat, r: nat)
    requires var w := Run(Locking, actions, lifetime);
      && w.lock == Free && RequestOf(w, r).Presented? && RequestOf(w, r).id < w.sealed && w.account.active
    ensures var w := Run(Locking, actions, lifetime);
      && RequestOf(w, r).id < |w.account.tokens| && w.account.cutoff.At?
      && (RefreshWhole(w, r, lifetime).account == w.account <==> w.account.tokens[RequestOf(w, r).id].createdAt < w.account.cutoff.t)
  {
    RunStaysSafe(actions, lifetime);
    var w := Run(Locking, actions, lifetime);
    RefreshAtOnce(w, r, lifetime);
    if !(w.account.tokens[RequestOf(w, r).id].createdAt < w.account.cutoff.t) {
      assert |Exchange(w.account, RequestOf(w, r).id, w.clock, lifetime).tokens| == |w.account.tokens| + 1;
    }
  }

  /** A token is presented only while it is neither revoked nor expired. */
  lemma PresentedExactly(mode: Mode, w: World, r: nat, id: nat, lifetime: nat)
    requires RequestOf(w, r) == Idle
    ensures var v := Step(mode, w, Present(r, id), lifetime);
      && v.account == w.account
      && (RequestOf(v, r) == Presented(id) <==> id < |w.account.tokens| && !w.account.tokens[id].revoked && w.clock < w.account.tokens[id].expiresAt)
      && (RequestOf(v, r) == Presented(id) || RequestOf(v, r) == Idle)
  {
  }

  /** A token that was revoked, and the requests that had read it by then. */
  ghost predicate Spent(w: World, id: nat, readers: set<nat>) {
    && id < |w.account.tokens| && w.account.tokens[id].revoked
    && forall r :: RequestOf(w, r) == Presented(id) ==> r in readers
  }

  lemma StepKeepsSpent(mode: Mode, w: World, a: Action, lifetime: nat, id: nat, readers: set<nat>)
    requires Spent(w, id, readers)
    ensures Spent(Step(mode, w, a, lifetime), id, readers)
  {
    var v := Step(mode, w, a, lifetime);
    forall r | RequestOf(v, r) == Presented(id) ensures r in readers {
      assert RequestOf(w, r) == Presented(id);
    }
  }

  /** Revoked once, by a rotation, an ending or a logout, a token stays revoked through every
      run, and nobody presents it who had not read it before. */
  lemma {:induction false} SpentForGood(mode: Mode, w: World, actions: seq<Action>, lifetime: nat, id: nat, readers: set<nat>)
    requires Spent(w, id, readers)
    ensures Spent(RunOn(mode, w, actions, lifetime), id, readers)
    decreases |actions|
  {
    if actions != [] {
      StepKeepsSpent(mode, w, actions[0], lifetime, id, readers);
      SpentForGood(mode, Step(mode, w, actions[0], lifetime), actions[1..], lifetime, id, readers);
    }
  }

  lemma LogOutSpends(mode: Mode, w: World, id: nat, lifetime: nat)
    requires id < |w.account.tokens|
    ensures Step(mode, w, LogOut(id), lifetime).account.tokens == w.account.tokens[id := w.account.tokens[id].(revoked := true)]
  {
  }

  /** A refresh of an account that was switched off gets nothing; switched on again it does. */
  lemma SwitchedOffIsRefused(w: World, r: nat, active: bool, lifetime: nat)
    requires w.lock == Free && RequestOf(w, r).Presented? && RequestOf(w, r).id < |w.account.tokens| && w.account.cutoff == Never
    ensures var off := Step(Locking, w, SetActive(active), lifetime);
      RefreshWhole(off, r, lifetime).account == off.account <==> !active
  {
    var off := Step(Locking, w, SetActive(active), lifetime);
    RefreshAtOnce(off, r, lifetime);
    if active {
      assert |Exchange(off.account, RequestOf(w, r).id, off.clock, lifetime).tokens| == |off.account.tokens| + 1;
    }
  }

  /** What an ending reports is how many tokens were live. */
  lemma {:induction false} LiveAreCounted(tokens: seq<Token>)
    ensures CountLive(tokens) == |set i: nat | i < |tokens| && !tokens[i].revoked|
  {
    if tokens != [] {
      var n := |tokens| - 1;
      LiveAreCounted(tokens[..n]);
      var before := set i: nat | i < n && !tokens[..n][i].revoked;
      assert (set i: nat | i < |tokens| && !tokens[i].revoked) == if tokens[n].revoked then before else before + {n};
    }
  }

  /** Rotation spends a token only for requests that have not read it yet: of two that have,
      the second gets a token too, exactly when the first did. */
  lemma TwoReadersBothRotate(w: World, r: nat, q: nat, id: nat, lifetime: nat)
    requires w.lock == Free && r != q && id < |w.account.tokens|
    requires RequestOf(w, r) == Presented(id) && RequestOf(w, q) == Presented(id)
    ensures var one := RefreshWhole(w, r, lifetime);
      var both := RefreshWhole(one, q, lifetime);
      && (|one.account.tokens| == |w.account.tokens| + 1 <==> Exchangeable(w.account, id))
      && (|both.account.tokens| == |w.account.tokens| + 2 <==> Exchangeable(w.account, id))
      && (Exchangeable(w.account, id) ==> both.account.tokens[|w.account.tokens| + 1].origin == FromToken(id) && Live(both.account.tokens[|w.account.tokens| + 1]))
  {
    RefreshAtOnce(w, r, lifetime);
    RefreshAtOnce(RefreshWhole(w, r, lifetime), q, lifetime);
  }

  /** Of the access tokens issued before the ending, exactly those of the ending's own
      second are still let through. */
  lemma OldAccessTokens(actions: seq<Action>, lifetime: nat, i: nat)
    requires i < Run(Locking, actions, lifetime).sealedAccess
    ensures var w := Run(Locking, actions, lifetime);
      && i < |w.account.access| && w.account.cutoff.At?
      && (AcceptsAccess(w.account, w.account.access[i]) <==> w.account.access[i] / SECOND == w.account.cutoff.t / SECOND)
  {
    RunStaysSafe(actions, lifetime);
  }

  /** A whole second starts after the one moment and no later than the other. */
  predicate SecondStarts(second: int, from: int, to: int) {
    from < second * 1_000_000 <= to
  }

  /** An access token is refused exactly when a whole second starts after it was issued and no
      later than the cutoff. */
  lemma AccessRefusedExactly(a: Account, issuedAt: int)
    ensures !AcceptsAccess(a, issuedAt) <==> a.cutoff.At? && exists second :: SecondStarts(second, issuedAt, a.cutoff.t)
  {
    if !AcceptsAccess(a, issuedAt) {
      assert SecondStarts(a.cutoff.t / SECOND, issuedAt, a.cutoff.t);
    }
  }

  /** Every access token issued since the ending is let through, in every interleaving. */
  lemma NewAccessTokensPass(actions: seq<Action>, lifetime: nat, i: nat)
    requires Run(Locking, actions, lifetime).sealedAccess <= i < |Run(Locking, actions, lifetime).account.access|
    ensures AcceptsAccess(Run(Locking, actions, lifetime).account, Run(Locking, actions, lifetime).account.access[i])
  {
    RunStaysSafe(actions, lifetime);
  }

  // ----- runs that show it -----

  function RunOn(mode: Mode, w: World, actions: seq<Action>, lifetime: nat): World
    decreases |actions|
  {
    if actions == [] then w else RunOn(mode, Step(mode, w, actions[0], lifetime), actions[1..], lifetime)
  }

  lemma RunStep(mode: Mode, actions: seq<Action>, a: Action, lifetime: nat)
    ensures Run(mode, actions + [a], lifetime) == Step(mode, Run(mode, actions, lifetime), a, lifetime)
  {
    assert (actions + [a])[..|actions|] == actions;
  }

  lemma {:induction false} RunOnward(mode: Mode, before: seq<Action>, after: seq<Action>, lifetime: nat)
    ensures Run(mode, before + after, lifetime) == RunOn(mode, Run(mode, before, lifetime), after, lifetime)
    decreases |after|
  {
    if after == [] {
      assert before + after == before;
    } else {
      RunStep(mode, before, after[0], lifetime);
      RunOnward(mode, before + [after[0]], after[1..], lifetime);
      assert before + after == before + [after[0]] + after[1..];
    }
  }

  /** A sign-in, and then another request that reads the token just issued. */
  const READ: seq<Action> := [LockForLogin(1), Issue(1), Commit(1), Present(2, 0)]

  /** The world then: one token, and one reader of it. */
  function OneReader(lifetime: nat, t: int): World {
    World(Account([Token(0, lifetime, false, FromLogin, 0)], Never, true, 1, [0]), Free, map[1 := Idle, 2 := Presented(0)], t, 0, 0, 0)
  }

  lemma ReadToken(mode: Mode, lifetime: nat)
    requires lifetime > 0
    ensures Run(mode, READ, lifetime) == OneReader(lifetime, 0)
  {
    var one := START.(lock := HeldBy(1), requests := map[1 := LoggingIn]);
    var two := one.(requests := map[1 := LoggedIn(0)]);
    var three := OneReader(lifetime, 0).(requests := map[1 := Idle]);
    assert Step(mode, START, READ[0], lifetime) == one && Step(mode, one, READ[1], lifetime) == two;
    assert Step(mode, two, READ[2], lifetime) == three && Step(mode, three, READ[3], lifetime) == OneReader(lifetime, 0);
    assert READ[..1] == [READ[0]] && READ[..2][..1] == READ[..1] && READ[..3][..2] == READ[..2] && READ[..4] == READ && READ[..4][..3] == READ[..3];
    assert READ[..1][..0] == [] && Run(mode, [], lifetime) == START;
    assert Run(mode, READ[..1], lifetime) == one;
    assert Run(mode, READ[..2], lifetime) == two;
    assert Run(mode, READ[..3], lifetime) == three;
  }

  lemma FourSteps(mode: Mode, w: World, actions: seq<Action>, lifetime: nat)
    requires |actions| == 4
    ensures RunOn(mode, w, actions, lifetime)
      == Step(mode, Step(mode, Step(mode, Step(mode, w, actions[0], lifetime), actions[1], lifetime), actions[2], lifetime), actions[3], lifetime)
  {
    var one := Step(mode, w, actions[0], lifetime);
    var two := Step(mode, one, actions[1], lifetime);
    var three := Step(mode, two, actions[2], lifetime);
    var four := Step(mode, three, actions[3], lifetime);
    assert RunOn(mode, w, actions, lifetime) == RunOn(mode, one, actions[1..], lifetime);
    assert RunOn(mode, one, actions[1..], lifetime) == RunOn(mode, two, actions[2..], lifetime) by {
      assert actions[1..][1..] == actions[2..] && actions[1..][0] == actions[1];
    }
    assert RunOn(mode, two, actions[2..], lifetime) == RunOn(mode, three, actions[3..], lifetime) by {
      assert actions[2..][1..] == actions[3..] && actions[2..][0] == actions[2];
    }
    assert RunOn(mode, three, actions[3..], lifetime) == RunOn(mode, four, [], lifetime) by {
      assert actions[3..][1..] == [] && actions[3..][0] == actions[3];
    }
  }

  function RefreshBy(r: nat): seq<Action> {
    [LockForRefresh(r), Check(r), Rotate(r), Commit(r)]
  }

  function EndingBy(r: nat): seq<Action> {
    [LockForEnding(r), Sweep(r), MoveCutoff(r), Commit(r)]
  }

  lemma RunRefresh(actions: seq<Action>, r: nat, lifetime: nat)
    ensures Run(Locking, actions + RefreshBy(r), lifetime) == RefreshWhole(Run(Locking, actions, lifetime), r, lifetime)
  {
    RunOnward(Locking, actions, RefreshBy(r), lifetime);
    FourSteps(Locking, Run(Locking, actions, lifetime), RefreshBy(r), lifetime);
  }

  lemma RunEnding(actions: seq<Action>, r: nat, lifetime: nat)
    ensures Run(Locking, actions + EndingBy(r), lifetime) == EndingWhole(Run(Locking, actions, lifetime), r, lifetime)
  {
    RunOnward(Locking, actions, EndingBy(r), lifetime);
    FourSteps(Locking, Run(Locking, actions, lifetime), EndingBy(r), lifetime);
  }

  /** Issued, read, swept and then exchanged within one clock instant: the tie is real, and
      a token then lives that descends from a sign-in of before the ending. */
  lemma TieLetsOneThrough(lifetime: nat)
    requires lifetime > 0
    ensures var w := Run(Locking, READ + EndingBy(3) + RefreshBy(2), lifetime);
      && TiedToken(w, 0)
      && exists i :: 0 <= i < |w.account.tokens| && Live(w.account.tokens[i]) && w.account.tokens[i].login < w.sealedLogins
  {
    ReadToken(Locking, lifetime);
    RunEnding(READ, 3, lifetime);
    EndingAtOnce(OneReader(lifetime, 0), 3, lifetime);
    var ended := Run(Locking, READ + EndingBy(3), lifetime);
    assert ended.account.tokens == [Token(0, lifetime, true, FromLogin, 0)];
    RunRefresh(READ + EndingBy(3), 2, lifetime);
    RefreshAtOnce(ended, 2, lifetime);
    var w := Run(Locking, READ + EndingBy(3) + RefreshBy(2), lifetime);
    assert w.account.tokens == [Token(0, lifetime, true, FromLogin, 0), Token(0, lifetime, false, FromToken(0), 0)];
    assert Live(w.account.tokens[1]);
  }

  /** Two requests read the one token of a sign-in before either takes the lock: both are given
      a live token for it. */
  lemma OneTokenSpentTwice(lifetime: nat)
    requires lifetime > 0
    ensures Run(Locking, READ + [Present(4, 0)] + RefreshBy(2) + RefreshBy(4), lifetime).account.tokens == [
      Token(0, lifetime, true, FromLogin, 0), Token(0, lifetime, false, FromToken(0), 0), Token(0, lifetime, false, FromToken(0), 0)]
  {
    ReadToken(Locking, lifetime);
    RunStep(Locking, READ, Present(4, 0), lifetime);
    var read := Run(Locking, READ + [Present(4, 0)], lifetime);
    RunRefresh(READ + [Present(4, 0)], 2, lifetime);
    RefreshAtOnce(read, 2, lifetime);
    var one := Run(Locking, READ + [Present(4, 0)] + RefreshBy(2), lifetime);
    assert one.account.tokens == [Token(0, lifetime, true, FromLogin, 0), Token(0, lifetime, false, FromToken(0), 0)];
    RunRefresh(READ + [Present(4, 0)] + RefreshBy(2), 4, lifetime);
    RefreshAtOnce(one, 4, lifetime);
  }

  // ----- without the lock -----

  /** An ending sweeps and moves the cutoff; before it commits, a refresh passes the check. */
  const SWEPT: seq<Action> := [Tick(1), LockForEnding(3), Sweep(3), MoveCutoff(3)]
  const SLIPS: seq<Action> := [LockForRefresh(2), Check(2), Tick(2), Rotate(2)]

  lemma SweptUnlocked(lifetime: nat)
    ensures RunOn(Unlocked, OneReader(lifetime, 0), SWEPT, lifetime)
      == OneReader(lifetime, 1).(lock := HeldBy(3), requests := map[1 := Idle, 2 := Presented(0), 3 := Moved(1, 1)])
  {
    FourSteps(Unlocked, OneReader(lifetime, 0), SWEPT, lifetime);
  }

  lemma SlipsThrough(w: World, lifetime: nat)
    requires w == OneReader(lifetime, 1).(lock := HeldBy(3), requests := map[1 := Idle, 2 := Presented(0), 3 := Moved(1, 1)])
    ensures RunOn(Unlocked, w, SLIPS, lifetime)
      == OneReader(lifetime, 2).(lock := HeldBy(2), requests := map[1 := Idle, 2 := Rotated(0, 2), 3 := Moved(1, 1)])
  {
    FourSteps(Unlocked, w, SLIPS, lifetime);
  }

  lemma BothCommit(w: World, lifetime: nat)
    requires w == OneReader(lifetime, 2).(lock := HeldBy(2), requests := map[1 := Idle, 2 := Rotated(0, 2), 3 := Moved(1, 1)])
    ensures var v := Step(Unlocked, Step(Unlocked, w, Commit(2), lifetime), Commit(3), lifetime);
      && v.account == Account([Token(0, lifetime, true, FromLogin, 0), Token(2, 2 + lifetime, false, FromToken(0), 0)], At(1), true, 1, [0, 2])
      && v.sealed == 2 && v.sealedLogins == 1
  {
    var one := Step(Unlocked, w, Commit(2), lifetime);
    assert one.account.tokens == [Token(0, lifetime, true, FromLogin, 0), Token(2, 2 + lifetime, false, FromToken(0), 0)];
    assert RequestOf(one, 3) == Moved(1, 1);
  }

  /** Were the lock not waited for, a token could be committed after the sweep chose its rows and
      before the ending commits: it is live afterwards, on a sign-in of before, with no tie, and
      it can be exchanged again. */
  lemma WithoutTheLock(lifetime: nat)
    requires lifetime > 0
    ensures var w := Run(Unlocked, READ + SWEPT + SLIPS + [Commit(2)] + [Commit(3)], lifetime);
      && w.sealed == |w.account.tokens| == 2 && !Tied(w)
      && Live(w.account.tokens[1]) && w.account.tokens[1].login < w.sealedLogins && Exchangeable(w.account, 1)
  {
    ReadToken(Unlocked, lifetime);
    RunOnward(Unlocked, READ, SWEPT, lifetime);
    SweptUnlocked(lifetime);
    RunOnward(Unlocked, READ + SWEPT, SLIPS, lifetime);
    SlipsThrough(Run(Unlocked, READ + SWEPT, lifetime), lifetime);
    RunStep(Unlocked, READ + SWEPT + SLIPS, Commit(2), lifetime);
    RunStep(Unlocked, READ + SWEPT + SLIPS + [Commit(2)], Commit(3), lifetime);
    BothCommit(Run(Unlocked, READ + SWEPT + SLIPS, lifetime), lifetime);
    var w := Run(Unlocked, READ + SWEPT + SLIPS + [Commit(2)] + [Commit(3)], lifetime);
    forall j: nat ensures !TiedToken(w, j) {
    }
  }
}
