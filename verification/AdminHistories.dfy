/** Histories of the clock and the tables, and runs of the admin middleware over a given history
    (backend/internal/middleware/admin_auth.go): how a run is built whose requests look up, read and store at
    chosen moments. A run goes through the moments in order and may stop at each for as many steps as it likes,
    so a history says when the tables changed and how time passed, and leaves everything else open. */
module AdminHistories {
  import opened GoStrings
  import opened AdminAuth

  /* ---------- histories, and runs over them ---------- */

  /** The clock and the tables at one instant. */
  datatype Moment = Moment(now: nat, db: Database)

  function MomentOf(s: State): Moment {
    Moment(s.now, s.db)
  }

  /** Between neighbouring moments either time passes or the tables are written. */
  ghost predicate History(h: seq<Moment>) {
    && h != []
    && forall n :: 0 <= n < |h| - 1 ==>
         (h[n + 1].db == h[n].db && h[n].now <= h[n + 1].now) || h[n + 1].now == h[n].now
  }

  lemma {:induction false} HistoryMonotone(h: seq<Moment>, m: nat, n: nat)
    requires History(h) && m <= n < |h|
    ensures h[m].now <= h[n].now
    decreases n
  {
    if m < n {
      HistoryMonotone(h, m, n - 1);
      assert h[n - 1 + 1].now >= h[n - 1].now;
    }
  }

  /** A run and the moment of each of its states. */
  datatype Run = Run(tr: seq<State>, acts: seq<Action>, at: seq<nat>)

  /** The run goes through the history, stopping at moments as long as it likes. */
  ghost predicate Over(h: seq<Moment>, r: Run) {
    && IsRun(r.tr, r.acts) && |r.at| == |r.tr| && r.at[0] == 0
    && (forall i :: 0 <= i < |r.tr| ==> r.at[i] < |h| && MomentOf(r.tr[i]) == h[r.at[i]])
    && forall i :: 0 <= i < |r.acts| ==> r.at[i + 1] == r.at[i] || r.at[i + 1] == r.at[i] + 1
  }

  lemma {:induction false} AtMonotone(h: seq<Moment>, r: Run, i: nat, j: nat)
    requires Over(h, r) && i <= j < |r.tr|
    ensures r.at[i] <= r.at[j]
    decreases j
  {
    if i < j {
      AtMonotone(h, r, i, j - 1);
      assert r.at[j - 1 + 1] >= r.at[j - 1];
    }
  }

  /* ---------- building a run ---------- */

  /** Requests hold what they read only between the two times. */
  ghost predicate HeldWithin(tr: seq<State>, lo: nat, hi: nat) {
    forall i, q :: 0 <= i < |tr| && Holding(tr[i], q) ==> lo <= tr[i].now <= hi
  }

  lemma HeldWithinIsPrompt(tr: seq<State>, lo: nat, hi: nat, gap: nat)
    requires HeldWithin(tr, lo, hi) && hi <= lo + gap
    ensures Prompt(tr, gap)
  {
    hide Holding;
  }

  function Last(r: Run): State
    requires r.tr != []
  {
    r.tr[|r.tr| - 1]
  }

  function Place(r: Run): nat
    requires r.at != []
  {
    r.at[|r.at| - 1]
  }

  /** A run over `h`, under construction. */
  ghost predicate Built(h: seq<Moment>, r: Run, lo: nat, hi: nat) {
    Over(h, r) && HeldWithin(r.tr, lo, hi)
  }

  /** `r` continues to `next`. */
  ghost predicate Continues(r: Run, next: Run) {
    r.tr <= next.tr && r.at <= next.at && r.tr != [] && r.at != []
  }

  /** One more step. */
  lemma Append(h: seq<Moment>, r: Run, a: Action, n: nat, lo: nat, hi: nat) returns (next: Run)
    requires Built(h, r, lo, hi) && n < |h| && (n == Place(r) || n == Place(r) + 1)
    requires MomentOf(Step(Last(r), a)) == h[n]
    requires forall q :: Holding(Step(Last(r), a), q) ==> lo <= h[n].now <= hi
    ensures Built(h, next, lo, hi) && Continues(r, next) && |next.tr| == |r.tr| + 1
    ensures Last(next) == Step(Last(r), a) && Place(next) == n
  {
    hide Step, Holding;
    var s := Step(Last(r), a);
    next := Run(r.tr + [s], r.acts + [a], r.at + [n]);
    forall i | 0 <= i < |next.acts| ensures next.tr[i + 1] == Step(next.tr[i], next.acts[i]) {
      if i < |r.acts| { assert r.tr[i + 1] == Step(r.tr[i], r.acts[i]); }
    }
  }

  /** Nothing but the clock and the tables moves until moment `n`. */
  lemma {:induction false} Forward(h: seq<Moment>, r: Run, n: nat, lo: nat, hi: nat) returns (next: Run)
    requires History(h) && Built(h, r, lo, hi) && Place(r) <= n < |h|
    requires forall q :: Holding(Last(r), q) ==> lo <= Last(r).now && h[n].now <= hi
    ensures Built(h, next, lo, hi) && Continues(r, next) && Place(next) == n
    ensures Last(next) == Last(r).(now := h[n].now, db := h[n].db) && MomentOf(Last(next)) == h[n]
    ensures Place(r) == n ==> next == r
    decreases n - Place(r)
  {
    assert MomentOf(Last(r)) == h[Place(r)];
    if Place(r) == n {
      next := r;
    } else {
      var p := Place(r);
      var a := if h[p + 1].db == h[p].db then Tick(h[p + 1].now - h[p].now) else Write(h[p + 1].db);
      HistoryMonotone(h, p, p + 1);
      HistoryMonotone(h, p + 1, n);
      assert Step(Last(r), a) == Last(r).(now := h[p + 1].now, db := h[p + 1].db);
      assert forall q :: Holding(Step(Last(r), a), q) <==> Holding(Last(r), q);
      hide Step, Holding, Built, History;
      var one := Append(h, r, a, p + 1, lo, hi);
      next := Forward(h, one, n, lo, hi);
    }
  }

  /** Only `q` holds anything. */
  ghost predicate OnlyHolder(s: State, q: RequestId) {
    forall p :: Holding(s, p) ==> p == q
  }

  /** Nobody holds anything. */
  ghost predicate Idle(s: State) {
    forall p :: !Holding(s, p)
  }

  /** What a step of request `q`, standing at `r`, does. */
  lemma AdvanceAt(s: State, q: RequestId, r: Request)
    requires At(s, q, r)
    ensures var t := Step(s, Advance(q));
      && t.requests == s.requests[q := Next(s, r)] && t.now == s.now && t.db == s.db
      && t.cache == (if r.StoreEntry? then s.cache[r.id := CachedAdminUser(r.user, s.now)] else s.cache)
      && (OnlyHolder(s, q) ==> OnlyHolder(t, q))
  {
    hide Next;
    var t := Step(s, Advance(q));
    assert forall p :: p != q ==> (Holding(t, p) <==> Holding(s, p));
  }

  lemma ArriveAt(s: State, q: RequestId, id: UserId)
    requires q !in s.requests && Idle(s)
    ensures var t := Step(s, Arrive(q, id));
      && t == s.(requests := s.requests[q := LookUp(id)]) && Idle(t) && OnlyHolder(t, q) && At(t, q, LookUp(id))
  {
    var t := Step(s, Arrive(q, id));
    forall p ensures !Holding(t, p) {
      if p != q { assert !Holding(s, p); }
    }
  }

  /** At moment `n` request `q`, standing at `r`, takes one step. */
  lemma Reach(h: seq<Moment>, r: Run, q: RequestId, here: Request, n: nat, lo: nat, hi: nat) returns (next: Run)
    requires History(h) && Built(h, r, lo, hi) && Place(r) <= n < |h| && OnlyHolder(Last(r), q) && At(Last(r), q, here)
    requires Holding(Last(r), q) ==> lo <= Last(r).now && h[n].now <= hi
    requires Next(Last(r).(now := h[n].now, db := h[n].db), here).FetchRole? ==> lo <= h[n].now <= hi
    ensures Built(h, next, lo, hi) && Continues(r, next) && Place(next) == n && |next.tr| > |r.tr|
    ensures n == Place(r) ==> |next.tr| == |r.tr| + 1
    ensures var s := Last(r).(now := h[n].now, db := h[n].db);
      && Last(next).requests == s.requests[q := Next(s, here)] && MomentOf(Last(next)) == h[n]
      && Last(next).cache == (if here.StoreEntry? then s.cache[here.id := CachedAdminUser(here.user, s.now)]
                              else s.cache)
      && OnlyHolder(Last(next), q)
  {
    assert Place(r) == n ==> h[n] == MomentOf(Last(r));
    HistoryMonotone(h, Place(r), n);
    var there := Forward(h, r, n, lo, hi);
    var s := Last(there);
    assert forall p :: Holding(s, p) <==> Holding(Last(r), p);
    AdvanceAt(s, q, here);
    var t := Step(s, Advance(q));
    assert Holding(t, q) ==> lo <= h[n].now <= hi;
    hide Step, Built, History, Next, Holding;
    next := Append(h, there, Advance(q), n, lo, hi);
  }

  function Looked(s: State, id: UserId): Request {
    TestAge(id, if id in s.cache then Some(s.cache[id]) else None)
  }

  /** At moment `n` request `q` arrives and looks the cache up. */
  lemma Begin(h: seq<Moment>, r: Run, q: RequestId, id: UserId, n: nat, lo: nat, hi: nat) returns (next: Run)
    requires History(h) && Built(h, r, lo, hi) && Place(r) <= n < |h| && Idle(Last(r)) && q !in Last(r).requests
    ensures Built(h, next, lo, hi) && Continues(r, next) && Place(next) == n && OnlyHolder(Last(next), q)
    ensures Last(next) == State(h[n].now, h[n].db, Last(r).cache, Last(r).requests[q := Looked(Last(r), id)])
  {
    var there := Forward(h, r, n, lo, hi);
    var s := Last(there);
    assert forall p :: Holding(s, p) <==> Holding(Last(r), p);
    ArriveAt(s, q, id);
    hide Built, History, Step, Holding;
    var arrived := Append(h, there, Arrive(q, id), n, lo, hi);
    next := Reach(h, arrived, q, LookUp(id), n, lo, hi);
    assert Last(next).requests == Last(r).requests[q := Looked(Last(r), id)];
  }

  /** The user read at `j` with the role read at `k`. */
  function Joined(h: seq<Moment>, id: UserId, j: nat, k: nat): User
    requires j < |h| && k < |h| && id in h[j].db.users
  {
    User(h[j].db.users[id], LoadRole(h[k].db, h[j].db.users[id]))
  }

  /** A request about to fetch reads the row at `j` and the role at `k`, stores at `m`, and decides. */
  lemma Fetch(h: seq<Moment>, r: Run, q: RequestId, id: UserId, j: nat, k: nat, m: nat) returns (next: Run)
    requires History(h) && j <= k <= m < |h| && Built(h, r, h[j].now, h[m].now) && Place(r) <= j
    requires At(Last(r), q, FetchUser(id)) && OnlyHolder(Last(r), q) && id in h[j].db.users
    ensures Built(h, next, h[j].now, h[m].now) && Continues(r, next) && Place(next) == m && Idle(Last(next))
    ensures At(Last(next), q, Done(id, Decision(Joined(h, id, j, k)))) && |next.tr| > |r.tr|
    ensures Last(next).requests.Keys == Last(r).requests.Keys
    ensures id in Last(next).cache && Last(next).cache[id] == CachedAdminUser(Joined(h, id, j, k), h[m].now)
  {
    var lo, hi := h[j].now, h[m].now;
    var row, user := h[j].db.users[id], Joined(h, id, j, k);
    HistoryMonotone(h, j, k);
    HistoryMonotone(h, k, m);
    hide Built, History, Step, LoadRole, Decision;
    var r1 := Reach(h, r, q, FetchUser(id), j, lo, hi);
    assert At(Last(r1), q, FetchRole(id, row));
    var r2 := Reach(h, r1, q, FetchRole(id, row), k, lo, hi);
    assert At(Last(r2), q, StoreEntry(id, user));
    var r3 := Reach(h, r2, q, StoreEntry(id, user), m, lo, hi);
    assert At(Last(r3), q, Decide(id, user));
    next := Reach(h, r3, q, Decide(id, user), m, lo, hi);
  }

  lemma Start(h: seq<Moment>, lo: nat, hi: nat) returns (r: Run)
    requires History(h)
    ensures Built(h, r, lo, hi) && |r.tr| == 1 && Place(r) == 0
    ensures Last(r) == State(h[0].now, h[0].db, map[], map[]) && Idle(Last(r))
  {
    r := Run([State(h[0].now, h[0].db, map[], map[])], [], [0]);
  }

  /** Request 1 reads the row at `j` and the role at `k` and stores both at `m`. */
  lemma Stored(h: seq<Moment>, id: UserId, j: nat, k: nat, m: nat) returns (r: Run)
    requires History(h) && j <= k <= m < |h| && id in h[j].db.users
    ensures Built(h, r, h[j].now, h[m].now) && Place(r) == m && Idle(Last(r)) && Last(r).requests.Keys == {1}
    ensures id in Last(r).cache && Last(r).cache[id] == CachedAdminUser(Joined(h, id, j, k), h[m].now)
  {
    var lo, hi := h[j].now, h[m].now;
    var r0 := Start(h, lo, hi);
    HistoryMonotone(h, j, k);
    HistoryMonotone(h, k, m);
    hide Built, History, Step, Decision;
    var r1 := Begin(h, r0, 1, id, j, lo, hi);
    var r2 := Reach(h, r1, 1, TestAge(id, None), j, lo, hi);
    assert At(Last(r2), 1, FetchUser(id));
    r := Fetch(h, r2, 1, id, j, k, m);
  }

  lemma BuiltLengths(h: seq<Moment>, r: Run, lo: nat, hi: nat)
    requires Built(h, r, lo, hi)
    ensures |r.at| == |r.tr|
  {}
}
