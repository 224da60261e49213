/** Runs of the admin middleware (backend/internal/middleware/admin_auth.go) that reach its limits: one that lets a
    request in at the latest possible instant, one in which a slow store puts an older read over a newer entry,
    and one in which two queries read a row and a role that were never usable together. Each run is written down
    as its actions and followed step by step. */
module AdminRuns {
  import opened GoStrings
  import opened AdminAuth

  const ADMIN := RoleRow(true, true)
  const OPEN := Database(map[0 := UserRow(true, Some(0))], map[0 := ADMIN])
  const CLOSED := Database(map[0 := UserRow(false, Some(0))], map[0 := ADMIN])
  const LOADED := User(UserRow(true, Some(0)), Some(ADMIN))

  /** Request 1 reads the open tables, then the user is deactivated. */
  const OPENING := [Arrive(1, 0), Advance(1), Advance(1), Advance(1), Advance(1), Write(CLOSED)]

  /** The entry is stored `gap` later, and request 2 hits it. */
  function TightActions(gap: nat): seq<Action> {
    OPENING + [Tick(gap), Advance(1), Advance(1), Arrive(2, 0), Advance(2), Tick(LIFETIME - 1), Advance(2), Advance(2)]
  }

  /** The run from the empty state over `db` that takes the given actions. */
  function Trace(db: Database, acts: seq<Action>): (tr: seq<State>)
    ensures |tr| == |acts| + 1 && tr[0] == State(0, db, map[], map[])
    ensures forall i :: 0 <= i < |acts| ==> tr[i + 1] == Step(tr[i], acts[i])
  {
    if acts == [] then [State(0, db, map[], map[])]
    else
      var tr := Trace(db, acts[..|acts| - 1]);
      tr + [Step(tr[|tr| - 1], acts[|acts| - 1])]
  }

  ghost predicate TightRun(gap: nat, tr: seq<State>) {
    IsRun(tr, TightActions(gap)) && tr[0] == State(0, OPEN, map[], map[])
  }

  lemma TightFetch(tr: seq<State>, acts: seq<Action>)
    requires IsRun(tr, acts) && OPENING <= acts && tr[0] == State(0, OPEN, map[], map[])
    ensures tr[6].now == 0 && tr[6].db == CLOSED && tr[6].cache == map[]
    ensures tr[6].requests.Keys == {1} && At(tr[6], 1, StoreEntry(0, LOADED))
  {
    assert acts[..6] == OPENING;
    assert tr[0 + 1] == Step(tr[0], Arrive(1, 0)) && At(tr[1], 1, LookUp(0));
    assert tr[1 + 1] == Step(tr[1], Advance(1)) && At(tr[2], 1, TestAge(0, None));
    assert tr[2 + 1] == Step(tr[2], Advance(1)) && At(tr[3], 1, FetchUser(0));
    assert tr[3 + 1] == Step(tr[3], Advance(1)) && At(tr[4], 1, FetchRole(0, LOADED.row));
    assert tr[4 + 1] == Step(tr[4], Advance(1)) && At(tr[5], 1, StoreEntry(0, LOADED));
    assert tr[5 + 1] == Step(tr[5], Write(CLOSED));
  }

  lemma TightStore(gap: nat, tr: seq<State>)
    requires TightRun(gap, tr)
    ensures tr[8].now == gap && !Holding(tr[8], 1) && tr[8].requests.Keys == {1} && tr[7].db == tr[8].db == CLOSED
    ensures tr[9].now == gap && tr[9].db == CLOSED && tr[9].requests.Keys == {1}
    ensures At(tr[9], 1, Done(0, Admitted(LOADED)))
    ensures 0 in tr[9].cache && tr[9].cache[0] == CachedAdminUser(LOADED, gap)
  {
    TightFetch(tr, TightActions(gap));
    assert tr[6 + 1] == Step(tr[6], Tick(gap));
    assert tr[7 + 1] == Step(tr[7], Advance(1)) && At(tr[8], 1, Decide(0, LOADED));
    assert tr[8 + 1] == Step(tr[8], Advance(1));
  }

  /** States in which request 1 is done and request 2 stands at `r`. */
  ghost predicate Serving(gap: nat, s: State, now: nat, r: Request) {
    && s.now == now && s.db == CLOSED && 0 in s.cache && s.cache[0] == CachedAdminUser(LOADED, gap)
    && s.requests.Keys == {1, 2} && At(s, 1, Done(0, Admitted(LOADED))) && At(s, 2, r)
  }

  lemma TightLookUp(gap: nat, tr: seq<State>)
    requires TightRun(gap, tr)
    ensures Serving(gap, tr[10], gap, LookUp(0))
    ensures Serving(gap, tr[11], gap, TestAge(0, Some(CachedAdminUser(LOADED, gap))))
  {
    TightStore(gap, tr);
    assert tr[9 + 1] == Step(tr[9], Arrive(2, 0)) && Serving(gap, tr[10], gap, LookUp(0));
    assert tr[10 + 1] == Step(tr[10], Advance(2));
  }

  lemma TightHit(gap: nat, tr: seq<State>)
    requires TightRun(gap, tr)
    ensures var cached := Some(CachedAdminUser(LOADED, gap));
      && Serving(gap, tr[10], gap, LookUp(0)) && Serving(gap, tr[11], gap, TestAge(0, cached))
      && Serving(gap, tr[12], gap + LIFETIME - 1, TestAge(0, cached))
      && Serving(gap, tr[13], gap + LIFETIME - 1, Decide(0, LOADED))
      && Serving(gap, tr[14], gap + LIFETIME - 1, Done(0, Admitted(LOADED)))
  {
    TightLookUp(gap, tr);
    assert tr[11 + 1] == Step(tr[11], Tick(LIFETIME - 1));
    assert tr[12 + 1] == Step(tr[12], Advance(2));
    assert tr[13 + 1] == Step(tr[13], Advance(2));
  }

  lemma TightIsPrompt(gap: nat, tr: seq<State>, q: RequestId, i: nat, j: nat)
    requires TightRun(gap, tr) && i <= j < |tr| && Holding(tr[i], q) && Holding(tr[j], q)
    ensures tr[j].now - tr[i].now <= gap
  {
    TightStore(gap, tr);
    if j < 8 {
      ClockMonotone(tr, TightActions(gap), j, 8);
    } else if j >= 10 {
      TightHit(gap, tr);
      assert j == 10 || j == 11 || j == 12 || j == 13 || j == 14;
    }
  }

  lemma TightIsClosed(gap: nat, tr: seq<State>, k: nat)
    requires TightRun(gap, tr) && 6 <= k < |tr|
    ensures tr[k].db == CLOSED
  {
    if k <= 9 {
      TightFetch(tr, TightActions(gap));
      TightStore(gap, tr);
    } else {
      TightHit(gap, tr);
      assert k == 10 || k == 11 || k == 12 || k == 13 || k == 14;
    }
  }

  lemma TightIsBarred(gap: nat, tr: seq<State>)
    requires TightRun(gap, tr)
    ensures UserBarred(tr, 6, 0)
  {
    hide TightRun, TightActions;
    forall k | 6 <= k < |tr| ensures tr[k].db == CLOSED {
      TightIsClosed(gap, tr, k);
    }
  }

  lemma TightRunIsPrompt(gap: nat, tr: seq<State>)
    requires TightRun(gap, tr)
    ensures Prompt(tr, gap)
  {
    hide TightRun, TightActions, Holding;
    forall q, i, j | 0 <= i <= j < |tr| && Holding(tr[i], q) && Holding(tr[j], q)
      ensures tr[j].now - tr[i].now <= gap
    {
      TightIsPrompt(gap, tr, q, i, j);
    }
  }

  /** The bound of `Revocation` is tight for every `gap`: one nanosecond earlier a request is let in. */
  lemma BoundIsTight(gap: nat) returns (tr: seq<State>, acts: seq<Action>, d: nat, c: nat, i: nat)
    ensures IsRun(tr, acts) && Prompt(tr, gap) && d < |tr| && UserBarred(tr, d, 0)
    ensures TestedAt(tr, c, 2, 0) && tr[c].now == tr[d].now + 30_000_000_000 + gap - 1
    ensures c < i < |tr| && At(tr[i], 2, Done(0, Admitted(LOADED)))
  {
    hide Prompt, UserBarred, Step, Trace;
    acts := TightActions(gap);
    tr := Trace(OPEN, acts);
    d, c, i := 6, 12, 14;
    TightFetch(tr, acts);
    TightHit(gap, tr);
    TightIsBarred(gap, tr);
    TightRunIsPrompt(gap, tr);
  }

  const RELOAD := [Arrive(2, 0), Advance(2), Advance(2), Advance(2), Advance(2), Advance(2), Advance(1)]

  lemma SecondFetch(tr: seq<State>)
    requires IsRun(tr, OPENING + RELOAD) && tr[0] == State(0, OPEN, map[], map[])
    ensures tr[7].db == tr[8].db == tr[9].db == tr[10].db == tr[11].db == CLOSED
    ensures At(tr[11], 1, StoreEntry(0, LOADED)) && At(tr[11], 2, StoreEntry(0, User(CLOSED.users[0], Some(ADMIN))))
  {
    TightFetch(tr, OPENING + RELOAD);
    assert tr[6 + 1] == Step(tr[6], Arrive(2, 0)) && At(tr[7], 2, LookUp(0));
    assert tr[7 + 1] == Step(tr[7], Advance(2)) && At(tr[8], 2, TestAge(0, None));
    assert tr[8 + 1] == Step(tr[8], Advance(2)) && At(tr[9], 2, FetchUser(0));
    assert tr[9 + 1] == Step(tr[9], Advance(2)) && At(tr[10], 2, FetchRole(0, CLOSED.users[0]));
    assert tr[10 + 1] == Step(tr[10], Advance(2));
  }

  lemma SlowStore(tr: seq<State>)
    requires IsRun(tr, OPENING + RELOAD) && tr[0] == State(0, OPEN, map[], map[])
    ensures 0 in tr[12].cache && !HasAdminAccess(tr[12].cache[0].user) && tr[12].db == CLOSED
    ensures 0 in tr[13].cache && HasAdminAccess(tr[13].cache[0].user) && tr[13].db == CLOSED
  {
    SecondFetch(tr);
    assert tr[11 + 1] == Step(tr[11], Advance(2)) && At(tr[12], 1, StoreEntry(0, LOADED));
    assert tr[12 + 1] == Step(tr[12], Advance(1));
  }

  /** A slow request can put an older user over a newer one: the refused entry becomes an admitting one. */
  lemma SlowStoreOverwrites() returns (tr: seq<State>, acts: seq<Action>)
    ensures IsRun(tr, acts) && |tr| == 14 && UserBarred(tr, 6, 0)
    ensures 0 in tr[12].cache && !HasAdminAccess(tr[12].cache[0].user)
    ensures 0 in tr[13].cache && HasAdminAccess(tr[13].cache[0].user)
  {
    acts := OPENING + RELOAD;
    tr := Trace(OPEN, acts);
    TightFetch(tr, acts);
    SecondFetch(tr);
    SlowStore(tr);
  }

  const BAD_ROLE := Database(map[0 := LOADED.row], map[0 := RoleRow(false, true)])
  const TEARING := [Arrive(1, 0), Advance(1), Advance(1), Advance(1), Write(CLOSED), Advance(1), Advance(1), Advance(1)]

  lemma TornRowRead(tr: seq<State>)
    requires IsRun(tr, TEARING) && tr[0] == State(0, BAD_ROLE, map[], map[])
    ensures tr[1].db == tr[2].db == tr[3].db == tr[4].db == BAD_ROLE
    ensures At(tr[4], 1, FetchRole(0, LOADED.row))
  {
    assert tr[0 + 1] == Step(tr[0], Arrive(1, 0)) && At(tr[1], 1, LookUp(0));
    assert tr[1 + 1] == Step(tr[1], Advance(1)) && At(tr[2], 1, TestAge(0, None));
    assert tr[2 + 1] == Step(tr[2], Advance(1)) && At(tr[3], 1, FetchUser(0));
    assert tr[3 + 1] == Step(tr[3], Advance(1));
  }

  lemma TornRoleRead(tr: seq<State>)
    requires IsRun(tr, TEARING) && tr[0] == State(0, BAD_ROLE, map[], map[])
    ensures tr[5].db == tr[6].db == tr[7].db == tr[8].db == CLOSED
    ensures At(tr[8], 1, Done(0, Admitted(LOADED)))
  {
    TornRowRead(tr);
    assert tr[4 + 1] == Step(tr[4], Write(CLOSED));
    assert tr[5 + 1] == Step(tr[5], Advance(1)) && At(tr[6], 1, StoreEntry(0, LOADED));
    assert tr[6 + 1] == Step(tr[6], Advance(1)) && At(tr[7], 1, Decide(0, LOADED));
    assert tr[7 + 1] == Step(tr[7], Advance(1));
  }

  /** Without `SnapshotReads` losing access as a whole is not enough: the two queries can pair a row
      and a role that were never usable together. */
  lemma TornReadAdmits() returns (tr: seq<State>, acts: seq<Action>)
    ensures IsRun(tr, acts) && |tr| == 9
    ensures forall k :: 0 <= k < |tr| ==> !Verdict(tr[k].db, tr[k].db, 0).Admitted?
    ensures At(tr[8], 1, Done(0, Admitted(LOADED)))
  {
    acts := TEARING;
    tr := Trace(BAD_ROLE, acts);
    TornRowRead(tr);
    TornRoleRead(tr);
  }
}
