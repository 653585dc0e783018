/** Requests racing for one allowance. Each checks, works and is then charged; the account's
    lock is held throughout unless something commits in between. */
module AiQuotaRuns {
  import opened Clock
  import opened AiQuota

  /** Where one request is between its check, made at `at`, and its charge. */
  datatype Request = Idle | Checked(user: nat, kind: Kind, at: int)

  /** `holders` says which request holds an account's lock. `loose` has the ids of the
      charges made by requests that no longer held it. */
  datatype World = World(
    rows: seq<Row>,
    nextId: nat,
    clock: int,
    holders: map<nat, nat>,
    requests: map<nat, Request>,
    loose: set<nat>)

  datatype Action =
    | Tick(to: int)
    | Check(r: nat, user: nat, kind: Kind)
    | Commit(r: nat)
    | Charge(r: nat)
    | Abandon(r: nat)
    | Refund(id: nat)

  const START: World := World([], 0, 0, map[], map[], {})

  function RequestOf(w: World, r: nat): Request {
    if r in w.requests then w.requests[r] else Idle
  }

  predicate Holds(w: World, user: nat, r: nat) {
    user in w.holders && w.holders[user] == r
  }

  function Released(w: World, user: nat, r: nat): map<nat, nat> {
    if Holds(w, user, r) then map u | u in w.holders && u != user :: w.holders[u] else w.holders
  }

  /** One step of one request; a step that is not enabled changes nothing. */
  function Step(l: Limits, w: World, a: Action): World {
    match a
    case Tick(t) => if t >= w.clock then w.(clock := t) else w
    case Check(r, user, kind) =>
      if RequestOf(w, r) == Idle && user !in w.holders && Judge(w.rows, l, user, kind, w.clock) == Admitted
      then w.(holders := w.holders[user := r], requests := w.requests[r := Checked(user, kind, w.clock)])
      else w
    case Commit(r) =>
      if RequestOf(w, r).Checked? then w.(holders := Released(w, RequestOf(w, r).user, r)) else w
    case Charge(r) =>
      if RequestOf(w, r).Checked? then ChargeOf(w, r, RequestOf(w, r).user, RequestOf(w, r).kind) else w
    case Abandon(r) =>
      if RequestOf(w, r).Checked?
      then w.(holders := Released(w, RequestOf(w, r).user, r), requests := w.requests[r := Idle])
      else w
    case Refund(id) => w.(rows := Without(w.rows, id))
  }

  function ChargeOf(w: World, r: nat, user: nat, kind: Kind): World {
    w.(
      rows := Charged(w.rows, w.nextId, user, kind, w.clock),
      nextId := w.nextId + 1,
      holders := Released(w, user, r),
      requests := w.requests[r := Idle],
      loose := if Holds(w, user, r) then w.loose else w.loose + {w.nextId})
  }

  function Run(l: Limits, actions: seq<Action>): World {
    if actions == [] then START else Step(l, Run(l, actions[..|actions| - 1]), actions[|actions| - 1])
  }

  // ----- counting -----

  lemma CountInLast(s: seq<int>, x: int, from: int, to: int)
    ensures CountIn(s + [x], from, to) == CountIn(s, from, to) + if from <= x <= to then 1 else 0
  {
  }

  lemma {:induction false} CountInAtMost(s: seq<int>, low: int, from: int, to: int)
    requires low <= from
    ensures CountIn(s, from, to) <= CountFrom(s, low)
  {
    if s != [] {
      CountInAtMost(s[..|s| - 1], low, from, to);
    }
  }

  lemma StampsCharged(rows: seq<Row>, id: nat, user: nat, kind: Kind, now: int)
    ensures Stamps(Charged(rows, id, user, kind, now), user, kind) == Stamps(rows, user, kind) + [now]
    ensures forall u: nat, k :: (u, k) != (user, kind) ==> Stamps(Charged(rows, id, user, kind, now), u, k) == Stamps(rows, u, k)
  {
  }

  lemma StampsLast(rows: seq<Row>, row: Row, user: nat, kind: Kind)
    ensures Stamps(rows + [row], user, kind) == Stamps(rows, user, kind) + if row.user == user && row.kind == kind then [row.at] else []
  {
  }

  lemma CountedLast(rows: seq<Row>, row: Row, user: nat, kind: Kind, from: int, to: int)
    ensures CountFrom(Stamps(rows + [row], user, kind), from)
      == CountFrom(Stamps(rows, user, kind), from) + if row.user == user && row.kind == kind && row.at >= from then 1 else 0
    ensures CountIn(Stamps(rows + [row], user, kind), from, to)
      == CountIn(Stamps(rows, user, kind), from, to) + if row.user == user && row.kind == kind && from <= row.at <= to then 1 else 0
  {
    var stamps := Stamps(rows, user, kind);
    StampsLast(rows, row, user, kind);
    assert stamps + [] == stamps;
    CountFromLast(stamps, row.at, from);
    CountInLast(stamps, row.at, from, to);
  }

  lemma {:induction false} RefundOnlyFrees(rows: seq<Row>, id: nat, user: nat, kind: Kind, from: int, to: int)
    ensures CountFrom(Stamps(Without(rows, id), user, kind), from) <= CountFrom(Stamps(rows, user, kind), from)
    ensures CountIn(Stamps(Without(rows, id), user, kind), from, to) <= CountIn(Stamps(rows, user, kind), from, to)
  {
    if rows != [] {
      var front, last := rows[..|rows| - 1], rows[|rows| - 1];
      RefundOnlyFrees(front, id, user, kind, from, to);
      assert rows == front + [last];
      CountedLast(front, last, user, kind, from, to);
      if last.id == id {
        assert Without(rows, id) == Without(front, id);
      } else {
        assert Without(rows, id) == Without(front, id) + [last];
        CountedLast(Without(front, id), last, user, kind, from, to);
      }
    }
  }

  // ----- charges made under the lock, and the others -----

  /** The rows whose ids are, or are not, among some. */
  function Kept(rows: seq<Row>, ids: set<nat>): seq<Row> {
    if rows == [] then []
    else Kept(rows[..|rows| - 1], ids) + if rows[|rows| - 1].id in ids then [] else [rows[|rows| - 1]]
  }

  function Among(rows: seq<Row>, ids: set<nat>): seq<Row> {
    if rows == [] then []
    else Among(rows[..|rows| - 1], ids) + if rows[|rows| - 1].id in ids then [rows[|rows| - 1]] else []
  }

  function Guarded(w: World): seq<Row> {
    Kept(w.rows, w.loose)
  }

  function Loose(w: World): seq<Row> {
    Among(w.rows, w.loose)
  }

  lemma {:induction false} SplitCounts(rows: seq<Row>, ids: set<nat>, user: nat, kind: Kind, from: int, to: int)
    ensures CountIn(Stamps(rows, user, kind), from, to)
      == CountIn(Stamps(Kept(rows, ids), user, kind), from, to) + CountIn(Stamps(Among(rows, ids), user, kind), from, to)
    ensures CountFrom(Stamps(Kept(rows, ids), user, kind), from) <= CountFrom(Stamps(rows, user, kind), from)
  {
    if rows != [] {
      var front, last := rows[..|rows| - 1], rows[|rows| - 1];
      SplitCounts(front, ids, user, kind, from, to);
      assert rows == front + [last];
      CountedLast(front, last, user, kind, from, to);
      CountedLast(Kept(front, ids), last, user, kind, from, to);
      CountedLast(Among(front, ids), last, user, kind, from, to);
      SplitLast(front, last, ids);
    }
  }

  lemma SplitLast(front: seq<Row>, last: Row, ids: set<nat>)
    ensures Kept(front + [last], ids) == if last.id in ids then Kept(front, ids) else Kept(front, ids) + [last]
    ensures Among(front + [last], ids) == if last.id in ids then Among(front, ids) + [last] else Among(front, ids)
  {
    assert (front + [last])[..|front|] == front;
  }

  lemma {:induction false} KeptWithout(rows: seq<Row>, ids: set<nat>, id: nat)
    ensures Kept(Without(rows, id), ids) == Without(Kept(rows, ids), id)
  {
    if rows != [] {
      var front, last := rows[..|rows| - 1], rows[|rows| - 1];
      KeptWithout(front, ids, id);
      assert rows == front + [last];
      SplitLast(front, last, ids);
      SplitLast(Without(front, id), last, ids);
      WithoutLast(front, last, id);
      WithoutLast(Kept(front, ids), last, id);
    }
  }

  lemma WithoutLast(front: seq<Row>, last: Row, id: nat)
    ensures Without(front + [last], id) == if last.id == id then Without(front, id) else Without(front, id) + [last]
  {
    assert (front + [last])[..|front|] == front;
  }

  lemma {:induction false} KeptDespite(rows: seq<Row>, ids: set<nat>, id: nat)
    requires Unused(rows, id)
    ensures Kept(rows, ids + {id}) == Kept(rows, ids)
  {
    if rows != [] {
      KeptDespite(rows[..|rows| - 1], ids, id);
    }
  }

  predicate FreshIds(w: World) {
    && (forall i :: 0 <= i < |w.rows| ==> w.rows[i].id < w.nextId)
    && (forall id :: id in w.loose ==> id < w.nextId)
  }

  /** A charge adds to the guarded rows exactly when its request holds the lock. */
  lemma ChargeGuarded(w: World, r: nat, user: nat, kind: Kind)
    requires FreshIds(w)
    ensures FreshIds(ChargeOf(w, r, user, kind))
    ensures Guarded(ChargeOf(w, r, user, kind))
      == if Holds(w, user, r) then Charged(Guarded(w), w.nextId, user, kind, w.clock) else Guarded(w)
  {
    var row := Row(w.nextId, user, kind, w.clock);
    SplitLast(w.rows, row, w.loose);
    SplitLast(w.rows, row, w.loose + {w.nextId});
    KeptDespite(w.rows, w.loose, w.nextId);
  }

  lemma {:induction false} WithoutKeepsIds(rows: seq<Row>, id: nat, bound: nat)
    requires forall i :: 0 <= i < |rows| ==> rows[i].id < bound
    ensures forall i :: 0 <= i < |Without(rows, id)| ==> Without(rows, id)[i].id < bound
  {
    if rows != [] {
      WithoutKeepsIds(rows[..|rows| - 1], id, bound);
    }
  }

  // ----- every window -----

  /** One of the two limits on one assistant, with the window it is counted over. */
  predicate IsLimit(l: Limits, kind: Kind, limit: int, span: int) {
    limit > 0 && ((span == HOUR && limit == HourlyLimit(l, kind)) || (span == DAY && limit == DailyLimit(l, kind)))
  }

  /** The closed window that starts at `from`. */
  function InWindow(rows: seq<Row>, user: nat, kind: Kind, from: int, span: int): nat {
    CountIn(Stamps(rows, user, kind), from, from + span)
  }

  ghost predicate NoWindowOver(w: World, user: nat, kind: Kind, limit: int, span: int) {
    forall a :: InWindow(Guarded(w), user, kind, a, span) <= limit
  }

  ghost predicate CheckedByNow(w: World) {
    forall r :: RequestOf(w, r).Checked? ==> RequestOf(w, r).at <= w.clock
  }

  /** A request that still holds the lock has kept the room it found: only charges made without
      the lock can have come since. */
  ghost predicate RoomHeld(w: World, user: nat, kind: Kind, limit: int, span: int) {
    forall r :: RequestOf(w, r).Checked? && RequestOf(w, r).user == user && RequestOf(w, r).kind == kind && Holds(w, user, r) ==>
      CountFrom(Stamps(Guarded(w), user, kind), RequestOf(w, r).at - span) < limit
  }

  ghost predicate Sound(w: World, user: nat, kind: Kind, limit: int, span: int) {
    && FreshIds(w) && CheckedByNow(w)
    && NoWindowOver(w, user, kind, limit, span)
    && RoomHeld(w, user, kind, limit, span)
  }

  lemma SameWindows(w: World, v: World, user: nat, kind: Kind, limit: int, span: int)
    requires NoWindowOver(w, user, kind, limit, span)
    requires Stamps(Guarded(v), user, kind) == Stamps(Guarded(w), user, kind)
    ensures NoWindowOver(v, user, kind, limit, span)
  {
    forall a ensures InWindow(Guarded(v), user, kind, a, span) <= limit {
      assert InWindow(Guarded(w), user, kind, a, span) <= limit;
    }
  }

  lemma ChargeKeepsWindows(w: World, r: nat, user: nat, kind: Kind, limit: int, span: int)
    requires Sound(w, user, kind, limit, span) && Holds(w, user, r)
    requires RequestOf(w, r).Checked? && RequestOf(w, r).user == user && RequestOf(w, r).kind == kind
    ensures NoWindowOver(ChargeOf(w, r, user, kind), user, kind, limit, span)
  {
    var v := ChargeOf(w, r, user, kind);
    var stamps := Stamps(Guarded(w), user, kind);
    ChargeGuarded(w, r, user, kind);
    StampsCharged(Guarded(w), w.nextId, user, kind, w.clock);
    forall a ensures InWindow(Guarded(v), user, kind, a, span) <= limit {
      assert InWindow(Guarded(w), user, kind, a, span) <= limit;
      CountInLast(stamps, w.clock, a, a + span);
      if a <= w.clock <= a + span {
        CountInAtMost(stamps, RequestOf(w, r).at - span, a, a + span);
      }
    }
  }

  /** The holder's charge gives the lock up with it. */
  lemma HolderChargeKeepsSound(w: World, r: nat, user: nat, kind: Kind, limit: int, span: int)
    requires Sound(w, user, kind, limit, span) && Holds(w, user, r)
    requires RequestOf(w, r).Checked? && RequestOf(w, r).user == user && RequestOf(w, r).kind == kind
    ensures Sound(ChargeOf(w, r, user, kind), user, kind, limit, span)
  {
    var v := ChargeOf(w, r, user, kind);
    ChargeGuarded(w, r, user, kind);
    ChargeKeepsWindows(w, r, user, kind, limit, span);
    assert user !in v.holders;
    assert forall q :: RequestOf(v, q).Checked? ==> RequestOf(w, q) == RequestOf(v, q);
  }

  ghost predicate NoMore(rows: seq<Row>, was: seq<Row>, user: nat, kind: Kind) {
    && (forall a, b :: CountIn(Stamps(rows, user, kind), a, b) <= CountIn(Stamps(was, user, kind), a, b))
    && (forall a :: CountFrom(Stamps(rows, user, kind), a) <= CountFrom(Stamps(was, user, kind), a))
  }

  /** Nobody new is between check and charge, or holds the account's lock. */
  ghost predicate Follows(w: World, v: World, user: nat) {
    && w.clock <= v.clock
    && (forall q :: RequestOf(v, q).Checked? ==> RequestOf(v, q) == RequestOf(w, q))
    && (forall q :: Holds(v, user, q) ==> Holds(w, user, q))
  }

  /** A step after which no guarded count has grown, and that lets nobody in, keeps all. */
  lemma FollowerIsSound(w: World, v: World, user: nat, kind: Kind, limit: int, span: int)
    requires Sound(w, user, kind, limit, span) && FreshIds(v) && Follows(w, v, user)
    requires NoMore(Guarded(v), Guarded(w), user, kind)
    ensures Sound(v, user, kind, limit, span)
  {
    FewerRowsKeepWindows(w, v, user, kind, limit, span);
    FewerRowsKeepRoom(w, v, user, kind, limit, span);
  }

  lemma FewerRowsKeepWindows(w: World, v: World, user: nat, kind: Kind, limit: int, span: int)
    requires NoWindowOver(w, user, kind, limit, span) && NoMore(Guarded(v), Guarded(w), user, kind)
    ensures NoWindowOver(v, user, kind, limit, span)
  {
    forall a ensures InWindow(Guarded(v), user, kind, a, span) <= limit {
      assert InWindow(Guarded(w), user, kind, a, span) <= limit;
    }
  }

  lemma FewerRowsKeepRoom(w: World, v: World, user: nat, kind: Kind, limit: int, span: int)
    requires RoomHeld(w, user, kind, limit, span) && NoMore(Guarded(v), Guarded(w), user, kind) && Follows(w, v, user)
    ensures RoomHeld(v, user, kind, limit, span)
  {
  }

  /** Any other charge leaves this account's guarded charges for this assistant alone. */
  lemma OtherChargeKeepsSound(w: World, r: nat, u: nat, k: Kind, user: nat, kind: Kind, limit: int, span: int)
    requires Sound(w, user, kind, limit, span) && ((u, k) != (user, kind) || !Holds(w, u, r))
    ensures Sound(ChargeOf(w, r, u, k), user, kind, limit, span)
  {
    var v := ChargeOf(w, r, u, k);
    ChargeGuarded(w, r, u, k);
    StampsCharged(Guarded(w), w.nextId, u, k, w.clock);
    assert Stamps(Guarded(v), user, kind) == Stamps(Guarded(w), user, kind);
    forall q ensures (RequestOf(v, q).Checked? ==> RequestOf(v, q) == RequestOf(w, q)) && (Holds(v, user, q) ==> Holds(w, user, q)) {
    }
    FollowerIsSound(w, v, user, kind, limit, span);
  }

  /** What the check admits finds room among the guarded charges too. */
  lemma AdmittedHasRoom(l: Limits, w: World, user: nat, kind: Kind, limit: int, span: int)
    requires IsLimit(l, kind, limit, span) && Judge(w.rows, l, user, kind, w.clock) == Admitted
    ensures CountFrom(Stamps(Guarded(w), user, kind), w.clock - span) < limit
  {
    SplitCounts(w.rows, w.loose, user, kind, w.clock - span, w.clock);
  }

  lemma CheckKeepsSound(l: Limits, w: World, r: nat, u: nat, k: Kind, user: nat, kind: Kind, limit: int, span: int)
    requires IsLimit(l, kind, limit, span) && Sound(w, user, kind, limit, span)
    ensures Sound(Step(l, w, Check(r, u, k)), user, kind, limit, span)
  {
    var v := Step(l, w, Check(r, u, k));
    if v != w {
      if (u, k) == (user, kind) {
        AdmittedHasRoom(l, w, user, kind, limit, span);
      }
      CheckedKeepsSound(w, r, u, k, user, kind, limit, span);
    }
  }

  lemma CheckedKeepsSound(w: World, r: nat, u: nat, k: Kind, user: nat, kind: Kind, limit: int, span: int)
    requires Sound(w, user, kind, limit, span) && u !in w.holders
    requires (u, k) == (user, kind) ==> CountFrom(Stamps(Guarded(w), user, kind), w.clock - span) < limit
    ensures Sound(w.(holders := w.holders[u := r], requests := w.requests[r := Checked(u, k, w.clock)]), user, kind, limit, span)
  {
    var v := w.(holders := w.holders[u := r], requests := w.requests[r := Checked(u, k, w.clock)]);
    SameWindows(w, v, user, kind, limit, span);
    forall q ensures RequestOf(v, q).Checked? ==> RequestOf(v, q).at <= v.clock {
      assert q != r ==> RequestOf(v, q) == RequestOf(w, q);
    }
    CheckedKeepsRoom(w, v, r, u, k, user, kind, limit, span);
  }

  lemma CheckedKeepsRoom(w: World, v: World, r: nat, u: nat, k: Kind, user: nat, kind: Kind, limit: int, span: int)
    requires RoomHeld(w, user, kind, limit, span) && u !in w.holders
    requires v == w.(holders := w.holders[u := r], requests := w.requests[r := Checked(u, k, w.clock)])
    requires (u, k) == (user, kind) ==> CountFrom(Stamps(Guarded(w), user, kind), w.clock - span) < limit
    ensures RoomHeld(v, user, kind, limit, span)
  {
    assert Guarded(v) == Guarded(w);
    forall q | RequestOf(v, q).Checked? && RequestOf(v, q).user == user && RequestOf(v, q).kind == kind && Holds(v, user, q)
      ensures CountFrom(Stamps(Guarded(v), user, kind), RequestOf(v, q).at - span) < limit
    {
      if q != r {
        assert RequestOf(v, q) == RequestOf(w, q) && Holds(w, user, q);
      }
    }
  }

  lemma RefundIsNoMore(rows: seq<Row>, id: nat, user: nat, kind: Kind)
    ensures NoMore(Without(rows, id), rows, user, kind)
  {
    forall a, b ensures CountIn(Stamps(Without(rows, id), user, kind), a, b) <= CountIn(Stamps(rows, user, kind), a, b) {
      RefundOnlyFrees(rows, id, user, kind, a, b);
    }
    forall a ensures CountFrom(Stamps(Without(rows, id), user, kind), a) <= CountFrom(Stamps(rows, user, kind), a) {
      RefundOnlyFrees(rows, id, user, kind, a, a);
    }
  }

  lemma RefundKeepsSound(w: World, id: nat, user: nat, kind: Kind, limit: int, span: int)
    requires Sound(w, user, kind, limit, span)
    ensures Sound(w.(rows := Without(w.rows, id)), user, kind, limit, span)
  {
    var v := w.(rows := Without(w.rows, id));
    WithoutKeepsIds(w.rows, id, w.nextId);
    KeptWithout(w.rows, w.loose, id);
    RefundIsNoMore(Guarded(w), id, user, kind);
    forall q ensures RequestOf(v, q) == RequestOf(w, q) && (Holds(v, user, q) ==> Holds(w, user, q)) {
    }
    FollowerIsSound(w, v, user, kind, limit, span);
  }

  lemma ReleaseKeepsSound(w: World, r: nat, u: nat, requests: map<nat, Request>, user: nat, kind: Kind, limit: int, span: int)
    requires Sound(w, user, kind, limit, span)
    requires requests == w.requests || requests == w.requests[r := Idle]
    ensures Sound(w.(holders := Released(w, u, r), requests := requests), user, kind, limit, span)
  {
    var v := w.(holders := Released(w, u, r), requests := requests);
    assert Guarded(v) == Guarded(w);
    forall q ensures (RequestOf(v, q).Checked? ==> RequestOf(v, q) == RequestOf(w, q)) && (Holds(v, user, q) ==> Holds(w, user, q)) {
    }
    FollowerIsSound(w, v, user, kind, limit, span);
  }

  lemma TickKeepsSound(w: World, t: int, user: nat, kind: Kind, limit: int, span: int)
    requires Sound(w, user, kind, limit, span) && t >= w.clock
    ensures Sound(w.(clock := t), user, kind, limit, span)
  {
    var v := w.(clock := t);
    assert Guarded(v) == Guarded(w);
    forall q ensures RequestOf(v, q) == RequestOf(w, q) && (Holds(v, user, q) ==> Holds(w, user, q)) {
    }
    FollowerIsSound(w, v, user, kind, limit, span);
  }

  lemma StepKeepsSound(l: Limits, w: World, a: Action, user: nat, kind: Kind, limit: int, span: int)
    requires IsLimit(l, kind, limit, span) && Sound(w, user, kind, limit, span)
    ensures Sound(Step(l, w, a), user, kind, limit, span)
  {
    match a
    case Tick(t) =>
      if t >= w.clock {
        TickKeepsSound(w, t, user, kind, limit, span);
      }
    case Check(r, u, k) => CheckKeepsSound(l, w, r, u, k, user, kind, limit, span);
    case Commit(r) =>
      if RequestOf(w, r).Checked? {
        ReleaseKeepsSound(w, r, RequestOf(w, r).user, w.requests, user, kind, limit, span);
      }
    case Charge(r) =>
      if RequestOf(w, r).Checked? {
        var u, k := RequestOf(w, r).user, RequestOf(w, r).kind;
        if (u, k) == (user, kind) && Holds(w, u, r) {
          HolderChargeKeepsSound(w, r, u, k, limit, span);
        } else {
          OtherChargeKeepsSound(w, r, u, k, user, kind, limit, span);
        }
      }
    case Abandon(r) =>
      if RequestOf(w, r).Checked? {
        ReleaseKeepsSound(w, r, RequestOf(w, r).user, w.requests[r := Idle], user, kind, limit, span);
      }
    case Refund(id) => RefundKeepsSound(w, id, user, kind, limit, span);
  }

  lemma {:induction false} RunIsSound(l: Limits, actions: seq<Action>, user: nat, kind: Kind, limit: int, span: int)
    requires IsLimit(l, kind, limit, span)
    ensures Sound(Run(l, actions), user, kind, limit, span)
  {
    if actions == [] {
      assert forall a :: InWindow(Guarded(START), user, kind, a, span) == 0;
    } else {
      RunIsSound(l, actions[..|actions| - 1], user, kind, limit, span);
      StepKeepsSound(l, Run(l, actions[..|actions| - 1]), actions[|actions| - 1], user, kind, limit, span);
    }
  }

  // ----- main results -----

  /** However requests, refunds and the clock interleave, no closed window anywhere on the
      time line holds more than its limit and the charges made in it without the lock. */
  lemma NoWindowHoldsTooMany(l: Limits, actions: seq<Action>, user: nat, kind: Kind, limit: int, span: int, from: int)
    requires IsLimit(l, kind, limit, span)
    ensures var w := Run(l, actions);
      InWindow(w.rows, user, kind, from, span) <= limit + InWindow(Loose(w), user, kind, from, span)
  {
    RunIsSound(l, actions, user, kind, limit, span);
    var w := Run(l, actions);
    assert InWindow(Guarded(w), user, kind, from, span) <= limit;
    SplitCounts(w.rows, w.loose, user, kind, from, from + span);
  }

  lemma {:induction false} NoneAmong(rows: seq<Row>)
    ensures Among(rows, {}) == []
  {
    if rows != [] {
      NoneAmong(rows[..|rows| - 1]);
    }
  }

  /** Until its charge, a request of a run with no commit in between holds the lock. */
  ghost predicate LockKept(w: World) {
    w.loose == {} && forall r :: RequestOf(w, r).Checked? ==> Holds(w, RequestOf(w, r).user, r)
  }

  lemma StepKeepsLock(l: Limits, w: World, a: Action)
    requires LockKept(w) && !a.Commit?
    ensures LockKept(Step(l, w, a))
  {
    var v := Step(l, w, a);
    forall q | RequestOf(v, q).Checked? ensures Holds(v, RequestOf(v, q).user, q) {
      if RequestOf(w, q).Checked? {
        assert RequestOf(v, q) == RequestOf(w, q) && Holds(w, RequestOf(w, q).user, q);
      }
    }
  }

  lemma {:induction false} LockIsKept(l: Limits, actions: seq<Action>)
    requires forall i :: 0 <= i < |actions| ==> !actions[i].Commit?
    ensures LockKept(Run(l, actions))
  {
    if actions != [] {
      LockIsKept(l, actions[..|actions| - 1]);
      StepKeepsLock(l, Run(l, actions[..|actions| - 1]), actions[|actions| - 1]);
    }
  }

  /** With nothing committed between check and charge, every window keeps to its limit. */
  lemma LockKeepsLimits(l: Limits, actions: seq<Action>, user: nat, kind: Kind, limit: int, span: int, from: int)
    requires IsLimit(l, kind, limit, span)
    requires forall i :: 0 <= i < |actions| ==> !actions[i].Commit?
    ensures InWindow(Run(l, actions).rows, user, kind, from, span) <= limit
  {
    LockIsKept(l, actions);
    NoneAmong(Run(l, actions).rows);
    NoWindowHoldsTooMany(l, actions, user, kind, limit, span, from);
  }

  // ----- the lock given up once -----

  /** Two questions sent at once, the first of which stores a slide reading. */
  function Race(kind: Kind): seq<Action> {
    [Check(1, 0, kind), Commit(1), Check(2, 0, kind), Charge(2), Charge(1)]
  }

  /** Some questions one after the other. */
  function Asked(n: nat, kind: Kind): seq<Action> {
    if n == 0 then [] else Asked(n - 1, kind) + [Check(1, 0, kind), Charge(1)]
  }

  function Commits(actions: seq<Action>): nat {
    if actions == [] then 0 else Commits(actions[..|actions| - 1]) + if actions[|actions| - 1].Commit? then 1 else 0
  }

  lemma RunStep(l: Limits, actions: seq<Action>, a: Action)
    ensures Run(l, actions + [a]) == Step(l, Run(l, actions), a)
  {
    assert (actions + [a])[..|actions|] == actions;
  }

  /** Nobody has anything open, and the one account was charged so often, all at the start. */
  ghost predicate Charged0(w: World, kind: Kind, n: nat) {
    && w.clock == 0
    && |Stamps(w.rows, 0, kind)| == n && (forall i :: 0 <= i < n ==> Stamps(w.rows, 0, kind)[i] == 0)
  }

  ghost predicate Quiet(w: World, kind: Kind, n: nat) {
    && Charged0(w, kind, n)
    && w.holders == map[] && w.loose == {} && RequestOf(w, 1) == Idle && RequestOf(w, 2) == Idle
  }

  lemma {:induction false} AllAtStart(stamps: seq<int>, from: int, to: int)
    requires (forall i :: 0 <= i < |stamps| ==> stamps[i] == 0) && from <= 0 <= to
    ensures CountFrom(stamps, from) == CountIn(stamps, from, to) == |stamps|
  {
    if stamps != [] {
      AllAtStart(stamps[..|stamps| - 1], from, to);
    }
  }

  /** Fewer charges than either limit: the next question is admitted. */
  lemma AdmittedBelow(l: Limits, w: World, kind: Kind, n: nat)
    requires Charged0(w, kind, n)
    requires HourlyLimit(l, kind) <= 0 || n < HourlyLimit(l, kind)
    requires DailyLimit(l, kind) <= 0 || n < DailyLimit(l, kind)
    ensures Judge(w.rows, l, 0, kind, w.clock) == Admitted
  {
    AllAtStart(Stamps(w.rows, 0, kind), -HOUR, 0);
    AllAtStart(Stamps(w.rows, 0, kind), -DAY, 0);
  }

  lemma ChargedOnce(w: World, r: nat, kind: Kind, n: nat)
    requires Charged0(w, kind, n)
    ensures Charged0(ChargeOf(w, r, 0, kind), kind, n + 1)
  {
    StampsCharged(w.rows, w.nextId, 0, kind, w.clock);
  }

  lemma CheckedOnce(l: Limits, w: World, kind: Kind, n: nat)
    requires Quiet(w, kind, n) && Judge(w.rows, l, 0, kind, w.clock) == Admitted
    ensures Step(l, w, Check(1, 0, kind)) == w.(holders := map[0 := 1], requests := w.requests[1 := Checked(0, kind, 0)])
  {
  }

  lemma AskedOnce(l: Limits, w: World, kind: Kind, n: nat)
    requires Quiet(w, kind, n) && Judge(w.rows, l, 0, kind, w.clock) == Admitted
    ensures Quiet(Step(l, Step(l, w, Check(1, 0, kind)), Charge(1)), kind, n + 1)
  {
    CheckedOnce(l, w, kind, n);
    var checked := w.(holders := map[0 := 1], requests := w.requests[1 := Checked(0, kind, 0)]);
    assert Step(l, checked, Charge(1)) == ChargeOf(checked, 1, 0, kind);
    assert Released(checked, 0, 1) == map[];
    ChargedOnce(checked, 1, kind, n);
  }

  lemma AskedAgain(l: Limits, actions: seq<Action>, kind: Kind, n: nat)
    requires Quiet(Run(l, actions), kind, n) && Judge(Run(l, actions).rows, l, 0, kind, Run(l, actions).clock) == Admitted
    ensures Quiet(Run(l, actions + [Check(1, 0, kind)] + [Charge(1)]), kind, n + 1)
  {
    RunStep(l, actions, Check(1, 0, kind));
    RunStep(l, actions + [Check(1, 0, kind)], Charge(1));
    AskedOnce(l, Run(l, actions), kind, n);
  }

  lemma AskedCommits(n: nat, kind: Kind)
    requires n > 0
    ensures Asked(n, kind) == Asked(n - 1, kind) + [Check(1, 0, kind)] + [Charge(1)]
    ensures Commits(Asked(n, kind)) == Commits(Asked(n - 1, kind))
  {
    CommitsJoin(Asked(n - 1, kind), [Check(1, 0, kind)]);
    CommitsJoin(Asked(n - 1, kind) + [Check(1, 0, kind)], [Charge(1)]);
    OneCommits(Check(1, 0, kind));
    OneCommits(Charge(1));
    assert Asked(n, kind) == Asked(n - 1, kind) + [Check(1, 0, kind)] + [Charge(1)];
  }

  lemma {:induction false} AskedQuietly(l: Limits, kind: Kind, n: nat)
    requires HourlyLimit(l, kind) <= 0 || n <= HourlyLimit(l, kind)
    requires DailyLimit(l, kind) <= 0 || n <= DailyLimit(l, kind)
    ensures Quiet(Run(l, Asked(n, kind)), kind, n) && Commits(Asked(n, kind)) == 0
  {
    if n > 0 {
      AskedQuietly(l, kind, n - 1);
      AdmittedBelow(l, Run(l, Asked(n - 1, kind)), kind, n - 1);
      AskedAgain(l, Asked(n - 1, kind), kind, n - 1);
      AskedCommits(n, kind);
    }
  }

  /** The run up to `k` steps into the race. */
  function IntoRace(before: seq<Action>, kind: Kind, k: nat): seq<Action>
    requires k <= |Race(kind)|
  {
    before + Race(kind)[..k]
  }

  lemma RaceStep(l: Limits, before: seq<Action>, kind: Kind, k: nat)
    requires k < |Race(kind)|
    ensures Run(l, IntoRace(before, kind, k + 1)) == Step(l, Run(l, IntoRace(before, kind, k)), Race(kind)[k])
  {
    RunStep(l, IntoRace(before, kind, k), Race(kind)[k]);
    assert IntoRace(before, kind, k + 1) == IntoRace(before, kind, k) + [Race(kind)[k]];
  }

  /** Both are admitted on the same count. */
  lemma BothAdmitted(l: Limits, before: seq<Action>, w: World, kind: Kind, n: nat)
    requires w == Run(l, before) && Quiet(w, kind, n) && Judge(w.rows, l, 0, kind, w.clock) == Admitted
    ensures Run(l, IntoRace(before, kind, 3))
      == w.(holders := map[0 := 2], requests := w.requests[1 := Checked(0, kind, 0)][2 := Checked(0, kind, 0)])
  {
    assert IntoRace(before, kind, 0) == before;
    RaceStep(l, before, kind, 0);
    CheckedOnce(l, w, kind, n);
    RaceStep(l, before, kind, 1);
    LockGivenUp(l, w, kind);
    RaceStep(l, before, kind, 2);
    SecondChecked(l, w, kind);
  }

  lemma LockGivenUp(l: Limits, w: World, kind: Kind)
    requires w.holders == map[]
    ensures Step(l, w.(holders := map[0 := 1], requests := w.requests[1 := Checked(0, kind, 0)]), Commit(1))
      == w.(requests := w.requests[1 := Checked(0, kind, 0)])
  {
    var checked := w.(holders := map[0 := 1], requests := w.requests[1 := Checked(0, kind, 0)]);
    assert Released(checked, 0, 1) == map[];
  }

  lemma SecondChecked(l: Limits, w: World, kind: Kind)
    requires w.holders == map[] && w.clock == 0 && RequestOf(w, 2) == Idle && Judge(w.rows, l, 0, kind, 0) == Admitted
    ensures Step(l, w.(requests := w.requests[1 := Checked(0, kind, 0)]), Check(2, 0, kind))
      == w.(holders := map[0 := 2], requests := w.requests[1 := Checked(0, kind, 0)][2 := Checked(0, kind, 0)])
  {
  }

  lemma HolderCharged(l: Limits, w: World, kind: Kind, n: nat)
    requires Charged0(w, kind, n) && w.loose == {} && w.holders == map[0 := 2]
    requires RequestOf(w, 1) == Checked(0, kind, 0) && RequestOf(w, 2) == Checked(0, kind, 0)
    ensures var v := Step(l, w, Charge(2));
      Charged0(v, kind, n + 1) && v.loose == {} && v.holders == map[] && RequestOf(v, 1) == Checked(0, kind, 0)
  {
    ChargedOnce(w, 2, kind, n);
    assert Step(l, w, Charge(2)) == ChargeOf(w, 2, 0, kind);
    assert Released(w, 0, 2) == map[];
  }

  lemma LooseCharged(l: Limits, w: World, kind: Kind, n: nat)
    requires Charged0(w, kind, n) && w.loose == {} && w.holders == map[] && RequestOf(w, 1) == Checked(0, kind, 0)
    ensures Charged0(Step(l, w, Charge(1)), kind, n + 1) && |Step(l, w, Charge(1)).loose| == 1
  {
    ChargedOnce(w, 1, kind, n);
    assert Step(l, w, Charge(1)) == ChargeOf(w, 1, 0, kind);
  }

  lemma {:induction false} CommitsJoin(before: seq<Action>, after: seq<Action>)
    ensures Commits(before + after) == Commits(before) + Commits(after)
  {
    if after == [] {
      assert before + after == before;
    } else {
      var front := after[..|after| - 1];
      CommitsJoin(before, front);
      assert (before + after)[..|before + after| - 1] == before + front;
    }
  }

  lemma RaceCommitsOnce(kind: Kind)
    ensures Commits(Race(kind)) == 1
  {
    var race := Race(kind);
    OneCommits(race[0]);
    CommitsJoin([race[0]], [race[1]]);
    OneCommits(race[1]);
    CommitsJoin([race[0]] + [race[1]], [race[2]]);
    OneCommits(race[2]);
    CommitsJoin([race[0]] + [race[1]] + [race[2]], [race[3]]);
    OneCommits(race[3]);
    CommitsJoin([race[0]] + [race[1]] + [race[2]] + [race[3]], [race[4]]);
    OneCommits(race[4]);
    assert race == [race[0]] + [race[1]] + [race[2]] + [race[3]] + [race[4]];
  }

  lemma OneCommits(a: Action)
    ensures Commits([a]) == if a.Commit? then 1 else 0
  {
    assert Commits([a][..0]) == 0;
  }

  lemma RaceEnds(l: Limits, before: seq<Action>, w: World, kind: Kind, n: nat)
    requires w == Run(l, before) && Quiet(w, kind, n) && Judge(w.rows, l, 0, kind, w.clock) == Admitted
    ensures Charged0(Run(l, before + Race(kind)), kind, n + 2)
    ensures |Run(l, before + Race(kind)).loose| == 1
  {
    BothAdmitted(l, before, w, kind, n);
    assert IntoRace(before, kind, 5) == before + Race(kind);
    RaceCloses(l, before, Run(l, IntoRace(before, kind, 3)), kind, n);
  }

  lemma RaceCloses(l: Limits, before: seq<Action>, w: World, kind: Kind, n: nat)
    requires w == Run(l, IntoRace(before, kind, 3))
    requires Charged0(w, kind, n) && w.loose == {} && w.holders == map[0 := 2]
    requires RequestOf(w, 1) == Checked(0, kind, 0) && RequestOf(w, 2) == Checked(0, kind, 0)
    ensures Charged0(Run(l, IntoRace(before, kind, 5)), kind, n + 2)
    ensures |Run(l, IntoRace(before, kind, 5)).loose| == 1
  {
    RaceStep(l, before, kind, 3);
    HolderCharged(l, w, kind, n);
    var one := Run(l, IntoRace(before, kind, 4));
    LooseEnds(l, before, one, kind, n + 1);
  }

  lemma LooseEnds(l: Limits, before: seq<Action>, w: World, kind: Kind, n: nat)
    requires w == Run(l, IntoRace(before, kind, 4))
    requires Charged0(w, kind, n) && w.loose == {} && w.holders == map[] && RequestOf(w, 1) == Checked(0, kind, 0)
    ensures Charged0(Run(l, IntoRace(before, kind, 5)), kind, n + 1)
    ensures |Run(l, IntoRace(before, kind, 5)).loose| == 1
  {
    RaceStep(l, before, kind, 4);
    LooseCharged(l, w, kind, n);
  }

  lemma WindowAtStart(w: World, kind: Kind, n: nat, span: int)
    requires Charged0(w, kind, n) && span >= 0
    ensures InWindow(w.rows, 0, kind, 0, span) == n
  {
    AllAtStart(Stamps(w.rows, 0, kind), 0, span);
  }

  /** The reading stored between check and charge gives the lock up, and so the bound above is
      reached: whatever the limits, a run with a single commit charges one question more than
      the tighter of them. */
  lemma StoredReadingOvercharges(l: Limits, kind: Kind, limit: nat, span: int)
    requires IsLimit(l, kind, limit, span)
    requires HourlyLimit(l, kind) <= 0 || limit <= HourlyLimit(l, kind)
    requires DailyLimit(l, kind) <= 0 || limit <= DailyLimit(l, kind)
    ensures Commits(Asked(limit - 1, kind) + Race(kind)) == 1
    ensures |Run(l, Asked(limit - 1, kind) + Race(kind)).loose| == 1
    ensures InWindow(Run(l, Asked(limit - 1, kind) + Race(kind)).rows, 0, kind, 0, span) == limit + 1
  {
    var before := Asked(limit - 1, kind);
    AskedQuietly(l, kind, limit - 1);
    AdmittedBelow(l, Run(l, before), kind, limit - 1);
    RaceCommitsOnce(kind);
    CommitsJoin(before, Race(kind));
    RaceEnds(l, before, Run(l, before), kind, limit - 1);
    WindowAtStart(Run(l, before + Race(kind)), kind, limit + 1, span);
  }

  // ----- one question from end to end -----

  /** Only the request that holds an account's lock gives it up. */
  lemma OthersKeepTheLock(l: Limits, w: World, a: Action, user: nat, q: nat)
    requires Holds(w, user, q) && (a.Tick? || a.Refund? || a.r != q)
    ensures Holds(Step(l, w, a), user, q)
  {
  }

  /** Every row is of an id given out and of a moment gone by. */
  predicate Recorded(rows: seq<Row>, bound: nat, now: int) {
    forall i :: 0 <= i < |rows| ==> rows[i].id < bound && rows[i].at <= now
  }

  lemma {:induction false} WithoutStaysRecorded(rows: seq<Row>, id: nat, bound: nat, now: int)
    requires Recorded(rows, bound, now)
    ensures Recorded(Without(rows, id), bound, now)
  {
    if rows != [] {
      WithoutStaysRecorded(rows[..|rows| - 1], id, bound, now);
    }
  }

  lemma {:induction false} RunStaysRecorded(l: Limits, actions: seq<Action>)
    ensures Recorded(Run(l, actions).rows, Run(l, actions).nextId, Run(l, actions).clock)
  {
    if actions != [] {
      var p, a := actions[..|actions| - 1], actions[|actions| - 1];
      RunStaysRecorded(l, p);
      if a.Refund? {
        WithoutStaysRecorded(Run(l, p).rows, a.id, Run(l, p).nextId, Run(l, p).clock);
      }
    }
  }

  /** Wherever a run has led: a question leaves its one row and nothing else, a refund of it
      nothing at all, and one abandoned before its charge neither a row nor a lock. */
  lemma QuestionComesAndGoes(l: Limits, w: World, r: nat, user: nat, kind: Kind)
    requires Recorded(w.rows, w.nextId, w.clock)
    requires RequestOf(w, r) == Idle && user !in w.holders && Judge(w.rows, l, user, kind, w.clock) == Admitted
    ensures var asked := Step(l, Step(l, w, Check(r, user, kind)), Charge(r));
      && asked.rows == w.rows + [Row(w.nextId, user, kind, w.clock)] && RequestOf(asked, r) == Idle && user !in asked.holders
      && Step(l, asked, Refund(w.nextId)).rows == w.rows
    ensures var left := Step(l, Step(l, w, Check(r, user, kind)), Abandon(r));
      left.rows == w.rows && RequestOf(left, r) == Idle && user !in left.holders
  {
    CheckedThenCharged(l, w, r, user, kind);
    var row := Row(w.nextId, user, kind, w.clock);
    RefundUndoesCharge(w.rows, row, []);
    assert w.rows + [row] + [] == w.rows + [row] && w.rows + [] == w.rows;
  }

  lemma CheckedThenCharged(l: Limits, w: World, r: nat, user: nat, kind: Kind)
    requires RequestOf(w, r) == Idle && user !in w.holders && Judge(w.rows, l, user, kind, w.clock) == Admitted
    ensures var asked := Step(l, Step(l, w, Check(r, user, kind)), Charge(r));
      asked.rows == w.rows + [Row(w.nextId, user, kind, w.clock)] && RequestOf(asked, r) == Idle && user !in asked.holders
    ensures var left := Step(l, Step(l, w, Check(r, user, kind)), Abandon(r));
      left.rows == w.rows && RequestOf(left, r) == Idle && user !in left.holders
  {
    assert Step(l, w, Check(r, user, kind)) == w.(holders := w.holders[user := r], requests := w.requests[r := Checked(user, kind, w.clock)]);
  }

  /** After more than a day without a charge everyone is admitted again. */
  lemma SilenceMakesRoom(l: Limits, actions: seq<Action>, user: nat, kind: Kind, t: int)
    requires t > Run(l, actions).clock + DAY
    ensures var w := Run(l, actions + [Tick(t)]);
      w.clock == t && Judge(w.rows, l, user, kind, w.clock) == Admitted
  {
    RunStaysRecorded(l, actions);
    RunStep(l, actions, Tick(t));
    var rows := Run(l, actions).rows;
    assert ChargesFrom(rows, user, kind, t - HOUR) == {} && ChargesFrom(rows, user, kind, t - DAY) == {};
    RefusedExactly(rows, l, user, kind, t);
  }
}
