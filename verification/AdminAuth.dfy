/** The admin authentication middleware: a process-wide map of loaded users, each entry
    trusted for thirty seconds, in front of the user and role tables. */
module AdminAuth {
  import opened GoStrings

  type UserId = nat
  type RoleId = nat
  type RequestId = nat

  datatype UserRow = UserRow(isActive: bool, roleId: Option<RoleId>)
  datatype RoleRow = RoleRow(isActive: bool, adminAccess: bool)
  datatype Database = Database(users: map<UserId, UserRow>, roles: map<RoleId, RoleRow>)

  /** A user as loaded with its role. */
  datatype User = User(row: UserRow, role: Option<RoleRow>)
  datatype CachedAdminUser = CachedAdminUser(user: User, fetchedAt: nat)

  /** Status 401, status 403, or the user handed to the next handler. */
  datatype Outcome = NotFound | Forbidden | Admitted(user: User)

  /** Thirty seconds, in nanoseconds. */
  const LIFETIME: nat := 30_000_000_000

  function LoadRole(db: Database, row: UserRow): Option<RoleRow> {
    if row.roleId.Some? && row.roleId.value in db.roles then Some(db.roles[row.roleId.value]) else None
  }

  predicate HasAdminAccess(user: User) {
    user.row.isActive && user.role.Some? && user.role.value.isActive && user.role.value.adminAccess
  }

  function Decision(user: User): Outcome {
    if HasAdminAccess(user) then Admitted(user) else Forbidden
  }

  predicate Fresh(entry: CachedAdminUser, now: nat) {
    now < entry.fetchedAt + LIFETIME
  }

  /** What the check answers with no cache, reading the user row from `users` and its role from `roles`. */
  function Verdict(users: Database, roles: Database, id: UserId): Outcome {
    if id !in users.users then NotFound
    else Decision(User(users.users[id], LoadRole(roles, users.users[id])))
  }

  /** In full: an active user with an active role that has admin access is let in, with the row and the role
      that were read; a user without a row is not found; everybody else is refused. */
  lemma VerdictIs(users: Database, roles: Database, id: UserId)
    ensures Verdict(users, roles, id) ==
      if id !in users.users then NotFound
      else
        var row := users.users[id];
        if row.isActive && row.roleId.Some? && row.roleId.value in roles.roles
           && roles.roles[row.roleId.value] == RoleRow(true, true)
        then Admitted(User(row, Some(RoleRow(true, true))))
        else Forbidden
  {}

  /* ---------- the shared map and one uninterrupted request ---------- */

  class AdminCache {
    var entries: map<UserId, CachedAdminUser>

    constructor ()
      ensures entries == map[]
    {
      entries := map[];
    }

    /** The section under the read lock. */
    method Lookup(id: UserId) returns (cached: Option<CachedAdminUser>)
      ensures cached == if id in entries then Some(entries[id]) else None
    {
      cached := if id in entries then Some(entries[id]) else None;
    }

    /** The section under the write lock; the clock is read inside it. */
    method Store(id: UserId, user: User, now: nat)
      modifies this
      ensures entries == old(entries)[id := CachedAdminUser(user, now)]
    {
      entries := entries[id := CachedAdminUser(user, now)];
    }
  }

  /** Entries and outcome after a request that tests freshness at `tested` and, on a miss, stores at `stored`. */
  function Serve(entries: map<UserId, CachedAdminUser>, db: Database, id: UserId, tested: nat, stored: nat)
    : (map<UserId, CachedAdminUser>, Outcome)
  {
    if id in entries && Fresh(entries[id], tested) then (entries, Decision(entries[id].user))
    else if id !in db.users then (entries, NotFound)
    else
      var user := User(db.users[id], LoadRole(db, db.users[id]));
      (entries[id := CachedAdminUser(user, stored)], Decision(user))
  }

  /** The handler, for one request that nothing interrupts. */
  method AdminAuthRequired(cache: AdminCache, db: Database, id: UserId, tested: nat, stored: nat)
    returns (outcome: Outcome)
    requires tested <= stored
    modifies cache
    ensures (cache.entries, outcome) == Serve(old(cache.entries), db, id, tested, stored)
  {
    var user: User;
    var isCached := false;
    var cached := cache.Lookup(id);
    if cached.Some? && tested - cached.value.fetchedAt < LIFETIME {
      user := cached.value.user;
      isCached := true;
    } else {
      user := User(UserRow(false, None), None);
    }
    if !isCached {
      if id !in db.users {
        return NotFound;
      }
      user := User(db.users[id], LoadRole(db, db.users[id]));
      cache.Store(id, user, stored);
    }
    if !user.row.isActive || user.role.None? || !user.role.value.isActive || !user.role.value.adminAccess {
      return Forbidden;
    }
    return Admitted(user);
  }

  /* ---------- interleaved requests ---------- */

  /* A request runs as a sequence of atomic steps. Between any two of them other requests may step, the
     database may change and time may pass. Loading a user takes two queries, one for the user row and one
     for the role it names. */

  /** Where a request stands: the step it takes next, with its local variables. */
  datatype Request =
    | LookUp(id: UserId)
    | TestAge(id: UserId, cached: Option<CachedAdminUser>)
    | FetchUser(id: UserId)
    | FetchRole(id: UserId, row: UserRow)
    | StoreEntry(id: UserId, user: User)
    | Decide(id: UserId, user: User)
    | Done(id: UserId, outcome: Outcome)

  datatype State = State(now: nat, db: Database, cache: map<UserId, CachedAdminUser>,
                         requests: map<RequestId, Request>)

  datatype Action =
    | Tick(elapsed: nat)
    | Write(db: Database)
    | Arrive(q: RequestId, id: UserId)
    | Advance(q: RequestId)

  /** The next position of a request taking one step in `s`. */
  function Next(s: State, r: Request): Request {
    match r
    case LookUp(id) => TestAge(id, if id in s.cache then Some(s.cache[id]) else None)
    case TestAge(id, cached) =>
      if cached.Some? && Fresh(cached.value, s.now) then Decide(id, cached.value.user) else FetchUser(id)
    case FetchUser(id) =>
      if id in s.db.users then FetchRole(id, s.db.users[id]) else Done(id, NotFound)
    case FetchRole(id, row) => StoreEntry(id, User(row, LoadRole(s.db, row)))
    case StoreEntry(id, user) => Decide(id, user)
    case Decide(id, user) => Done(id, Decision(user))
    case Done(_, _) => r
  }

  function Step(s: State, a: Action): State {
    match a
    case Tick(elapsed) => s.(now := s.now + elapsed)
    case Write(db) => s.(db := db)
    case Arrive(q, id) => if q in s.requests then s else s.(requests := s.requests[q := LookUp(id)])
    case Advance(q) =>
      if q !in s.requests then s
      else
        var r := s.requests[q];
        s.(requests := s.requests[q := Next(s, r)],
           cache := if r.StoreEntry? then s.cache[r.id := CachedAdminUser(r.user, s.now)] else s.cache)
  }

  /** A run: `tr[i + 1]` is `tr[i]` after `acts[i]`; it starts with nothing cached and nobody served. */
  ghost predicate IsRun(tr: seq<State>, acts: seq<Action>) {
    && |tr| == |acts| + 1
    && tr[0].cache == map[] && tr[0].requests == map[]
    && forall i :: 0 <= i < |acts| ==> tr[i + 1] == Step(tr[i], acts[i])
  }

  predicate At(s: State, q: RequestId, r: Request) {
    q in s.requests && s.requests[q] == r
  }

  /** Request `q` has read the user row and not stored the entry yet. */
  predicate Holding(s: State, q: RequestId) {
    q in s.requests && (s.requests[q].FetchRole? || s.requests[q].StoreEntry?)
  }

  /** No request spends more than `gap` between reading a user and storing it. */
  ghost predicate Prompt(tr: seq<State>, gap: nat) {
    forall q, i, j :: 0 <= i <= j < |tr| && Holding(tr[i], q) && Holding(tr[j], q) ==> tr[j].now - tr[i].now <= gap
  }

  /** Steps of `q` that read `row`, read the role, stored the entry, and tested the age of what it looked up. */
  ghost predicate UserReadAt(tr: seq<State>, k: nat, q: RequestId, id: UserId, row: UserRow) {
    k + 1 < |tr| && At(tr[k], q, FetchUser(id)) && At(tr[k + 1], q, FetchRole(id, row)) && tr[k].now == tr[k + 1].now
    && id in tr[k].db.users && tr[k].db.users[id] == row
  }

  ghost predicate RoleReadAt(tr: seq<State>, k: nat, q: RequestId, id: UserId, user: User) {
    k + 1 < |tr| && At(tr[k], q, FetchRole(id, user.row)) && At(tr[k + 1], q, StoreEntry(id, user))
    && user.role == LoadRole(tr[k].db, user.row)
  }

  ghost predicate TestedAt(tr: seq<State>, c: nat, q: RequestId, id: UserId) {
    c + 1 < |tr| && q in tr[c].requests && tr[c].requests[q].TestAge? && tr[c].requests[q].id == id
    && q in tr[c + 1].requests && !tr[c + 1].requests[q].TestAge?
  }

  /** Request `reader` read the row at `userRead` and the role at `roleRead`, and stored both at `stored`. */
  datatype Origin = Origin(reader: RequestId, userRead: nat, roleRead: nat, stored: nat)

  ghost predicate OriginOf(tr: seq<State>, o: Origin, id: UserId, user: User) {
    && o.userRead < o.roleRead < o.stored < |tr|
    && UserReadAt(tr, o.userRead, o.reader, id, user.row)
    && RoleReadAt(tr, o.roleRead, o.reader, id, user)
    && At(tr[o.stored], o.reader, StoreEntry(id, user))
  }

  /* ---------- where values come from: each lemma walks the run backwards ---------- */

  lemma {:induction false} ClockMonotone(tr: seq<State>, acts: seq<Action>, i: nat, j: nat)
    requires IsRun(tr, acts) && i <= j < |tr|
    ensures tr[i].now <= tr[j].now
    decreases j
  {
    if i < j {
      ClockMonotone(tr, acts, i, j - 1);
      assert tr[j - 1 + 1] == Step(tr[j - 1], acts[j - 1]);
    }
  }

  /** One step moves at most one request, and only forward. */
  lemma RequestStep(tr: seq<State>, acts: seq<Action>, i: nat, q: RequestId)
    requires IsRun(tr, acts) && 0 < i < |tr| && q in tr[i].requests
    ensures q !in tr[i - 1].requests ==> tr[i].requests[q].LookUp?
    ensures q in tr[i - 1].requests && tr[i].requests[q] != tr[i - 1].requests[q]
      ==> acts[i - 1] == Advance(q) && tr[i].requests[q] == Next(tr[i - 1], tr[i - 1].requests[q])
          && tr[i - 1].now == tr[i].now
  {
    assert tr[i - 1 + 1] == Step(tr[i - 1], acts[i - 1]);
  }

  lemma {:induction false} UserReadOrigin(tr: seq<State>, acts: seq<Action>, i: nat, q: RequestId) returns (k: nat)
    requires IsRun(tr, acts) && i < |tr| && q in tr[i].requests && tr[i].requests[q].FetchRole?
    ensures k < i && UserReadAt(tr, k, q, tr[i].requests[q].id, tr[i].requests[q].row)
    decreases i
  {
    RequestStep(tr, acts, i, q);
    if At(tr[i - 1], q, tr[i].requests[q]) {
      k := UserReadOrigin(tr, acts, i - 1, q);
    } else {
      k := i - 1;
    }
  }

  lemma {:induction false} FetchOrigin(tr: seq<State>, acts: seq<Action>, i: nat, q: RequestId) returns (o: Origin)
    requires IsRun(tr, acts) && i < |tr| && q in tr[i].requests && tr[i].requests[q].StoreEntry?
    ensures o.reader == q && o.stored == i && OriginOf(tr, o, tr[i].requests[q].id, tr[i].requests[q].user)
    decreases i
  {
    RequestStep(tr, acts, i, q);
    if At(tr[i - 1], q, tr[i].requests[q]) {
      o := FetchOrigin(tr, acts, i - 1, q);
      o := o.(stored := i);
    } else {
      var k := UserReadOrigin(tr, acts, i - 1, q);
      o := Origin(q, k, i - 1, i);
    }
  }

  /** Every entry was fetched by some request and carries the time of its store. */
  lemma {:induction false} EntryOrigin(tr: seq<State>, acts: seq<Action>, i: nat, id: UserId) returns (o: Origin)
    requires IsRun(tr, acts) && i < |tr| && id in tr[i].cache
    ensures OriginOf(tr, o, id, tr[i].cache[id].user)
    ensures o.stored < i && tr[o.stored].now == tr[i].cache[id].fetchedAt
    decreases i
  {
    assert tr[i - 1 + 1] == Step(tr[i - 1], acts[i - 1]);
    if id in tr[i - 1].cache && tr[i - 1].cache[id] == tr[i].cache[id] {
      o := EntryOrigin(tr, acts, i - 1, id);
    } else {
      o := FetchOrigin(tr, acts, i - 1, acts[i - 1].q);
    }
  }

  lemma {:induction false} LookedUpOrigin(tr: seq<State>, acts: seq<Action>, i: nat, q: RequestId) returns (o: Origin)
    requires IsRun(tr, acts) && i < |tr| && q in tr[i].requests
    requires tr[i].requests[q].TestAge? && tr[i].requests[q].cached.Some?
    ensures OriginOf(tr, o, tr[i].requests[q].id, tr[i].requests[q].cached.value.user)
    ensures o.stored < i && tr[o.stored].now == tr[i].requests[q].cached.value.fetchedAt
    decreases i
  {
    RequestStep(tr, acts, i, q);
    if At(tr[i - 1], q, tr[i].requests[q]) {
      o := LookedUpOrigin(tr, acts, i - 1, q);
    } else {
      o := EntryOrigin(tr, acts, i - 1, tr[i].requests[q].id);
    }
  }

  /** A request past its age test took that test at some earlier step. */
  lemma {:induction false} TestOrigin(tr: seq<State>, acts: seq<Action>, i: nat, q: RequestId) returns (c: nat)
    requires IsRun(tr, acts) && i < |tr| && q in tr[i].requests
    requires !tr[i].requests[q].LookUp? && !tr[i].requests[q].TestAge?
    ensures c < i && TestedAt(tr, c, q, tr[i].requests[q].id)
    ensures tr[i].requests[q].FetchUser? || Holding(tr[i], q) ==> At(tr[c + 1], q, FetchUser(tr[i].requests[q].id))
    ensures forall k :: 0 <= k < i && q in tr[k].requests && tr[k].requests[q].FetchUser? ==> c < k
    decreases i
  {
    RequestStep(tr, acts, i, q);
    if tr[i - 1].requests[q].TestAge? {
      c := i - 1;
      NoFetchBeforeTest(tr, acts, c, q);
    } else {
      c := TestOrigin(tr, acts, i - 1, q);
    }
  }

  lemma {:induction false} NoFetchBeforeTest(tr: seq<State>, acts: seq<Action>, i: nat, q: RequestId)
    requires IsRun(tr, acts) && i < |tr|
    requires q !in tr[i].requests || tr[i].requests[q].LookUp? || tr[i].requests[q].TestAge?
    ensures forall k :: 0 <= k <= i && q in tr[k].requests ==> !tr[k].requests[q].FetchUser?
    decreases i
  {
    if i > 0 {
      assert tr[i - 1 + 1] == Step(tr[i - 1], acts[i - 1]);
      NoFetchBeforeTest(tr, acts, i - 1, q);
    }
  }

  /** The user a request decides on: a hit on an entry young enough at the test, or its own later fetch. */
  lemma {:induction false} DecisionOrigin(tr: seq<State>, acts: seq<Action>, i: nat, q: RequestId)
    returns (o: Origin, c: nat)
    requires IsRun(tr, acts) && i < |tr| && q in tr[i].requests && tr[i].requests[q].Decide?
    ensures c < i && TestedAt(tr, c, q, tr[i].requests[q].id)
    ensures o.stored < i && OriginOf(tr, o, tr[i].requests[q].id, tr[i].requests[q].user)
    ensures (o.stored < c && tr[c].now < tr[o.stored].now + LIFETIME) || (c < o.userRead && o.reader == q)
    decreases i
  {
    RequestStep(tr, acts, i, q);
    if At(tr[i - 1], q, tr[i].requests[q]) {
      o, c := DecisionOrigin(tr, acts, i - 1, q);
    } else if tr[i - 1].requests[q].TestAge? {
      c := i - 1;
      o := LookedUpOrigin(tr, acts, i - 1, q);
    } else {
      o := FetchOrigin(tr, acts, i - 1, q);
      c := TestOrigin(tr, acts, i - 1, q);
    }
  }

  /* ---------- main results ---------- */

  /** `entry` joins the row at `k1` with the role at `k2`, both read at most `gap` before it was stored. */
  ghost predicate ReadAt(tr: seq<State>, k1: nat, k2: nat, id: UserId, entry: CachedAdminUser, gap: nat) {
    && k1 < k2 < |tr| && id in tr[k1].db.users
    && entry.user == User(tr[k1].db.users[id], LoadRole(tr[k2].db, tr[k1].db.users[id]))
    && tr[k1].now <= tr[k2].now <= entry.fetchedAt <= tr[k1].now + gap
  }

  /** Safety of every entry: its row and role are what the tables held at two instants, in that
      order, at most `gap` before `fetchedAt`, even when a slow request overwrote a newer entry. */
  lemma EntriesAreReads(tr: seq<State>, acts: seq<Action>, gap: nat, i: nat, id: UserId)
    requires IsRun(tr, acts) && Prompt(tr, gap) && i < |tr| && id in tr[i].cache
    ensures exists k1: nat, k2: nat :: k2 < i && ReadAt(tr, k1, k2, id, tr[i].cache[id], gap)
  {
    var o := EntryOrigin(tr, acts, i, id);
    ClockMonotone(tr, acts, o.userRead, o.roleRead);
    ClockMonotone(tr, acts, o.roleRead, o.stored);
    assert Holding(tr[o.userRead + 1], o.reader) && Holding(tr[o.stored], o.reader);
    assert ReadAt(tr, o.userRead, o.roleRead, id, tr[i].cache[id], gap);
  }

  /** The age of what request `q`, finished at `i`, was decided on. */
  ghost predicate DecidedFrom(tr: seq<State>, i: nat, q: RequestId, c: nat, k1: nat, k2: nat)
    requires i < |tr| && q in tr[i].requests && tr[i].requests[q].Done?
  {
    && c < i && k1 <= k2 < i
    && TestedAt(tr, c, q, tr[i].requests[q].id)
    && tr[i].requests[q].outcome == Verdict(tr[k1].db, tr[k2].db, tr[i].requests[q].id)
  }

  lemma {:induction false} OutcomeOrigin(tr: seq<State>, acts: seq<Action>, gap: nat, i: nat, q: RequestId)
    returns (c: nat, k1: nat, k2: nat)
    requires IsRun(tr, acts) && Prompt(tr, gap)
    requires i < |tr| && q in tr[i].requests && tr[i].requests[q].Done?
    ensures DecidedFrom(tr, i, q, c, k1, k2)
    ensures tr[c].now < tr[k1].now + LIFETIME + gap
    ensures k1 == k2 || exists reader: RequestId, user: User ::
      UserReadAt(tr, k1, reader, tr[i].requests[q].id, user.row)
        && RoleReadAt(tr, k2, reader, tr[i].requests[q].id, user)
    decreases i
  {
    RequestStep(tr, acts, i, q);
    if At(tr[i - 1], q, tr[i].requests[q]) {
      c, k1, k2 := OutcomeOrigin(tr, acts, gap, i - 1, q);
    } else if tr[i - 1].requests[q].FetchUser? {
      c := TestOrigin(tr, acts, i - 1, q);
      k1, k2 := i - 1, i - 1;
      ClockMonotone(tr, acts, c, k1);
    } else {
      var o: Origin;
      o, c := DecisionOrigin(tr, acts, i - 1, q);
      k1, k2 := o.userRead, o.roleRead;
      assert Holding(tr[k1 + 1], o.reader) && Holding(tr[o.stored], o.reader);
      if c < k1 {
        ClockMonotone(tr, acts, c, k1);
      }
    }
  }

  /** Bounded staleness: every request gets the answer of a check without a cache on a user row
      that the table held less than thirty seconds plus `gap` before the age test, and on the role
      table at that instant or later. */
  lemma BoundedStaleness(tr: seq<State>, acts: seq<Action>, gap: nat, i: nat, q: RequestId)
    requires IsRun(tr, acts) && Prompt(tr, gap)
    requires i < |tr| && q in tr[i].requests && tr[i].requests[q].Done?
    ensures exists c: nat, j: nat, k: nat ::
      DecidedFrom(tr, i, q, c, j, k) && tr[c].now < tr[j].now + 30_000_000_000 + gap
  {
    var c, k1, k2 := OutcomeOrigin(tr, acts, gap, i, q);
  }

  /** From state `d` on the user row alone refuses: it is missing, inactive or names no role. */
  ghost predicate UserBarred(tr: seq<State>, d: nat, id: UserId) {
    forall k :: d <= k < |tr| ==>
      id in tr[k].db.users ==> !tr[k].db.users[id].isActive || tr[k].db.users[id].roleId.None?
  }

  predicate RoleUsable(db: Database, role: RoleId) {
    role in db.roles && db.roles[role].isActive && db.roles[role].adminAccess
  }

  /** From state `d` on every role the user is given stays unusable. */
  ghost predicate RoleBarred(tr: seq<State>, d: nat, id: UserId) {
    forall j, k :: d <= j < |tr| && d <= k < |tr| && id in tr[j].db.users && tr[j].db.users[id].roleId.Some?
      ==> !RoleUsable(tr[k].db, tr[j].db.users[id].roleId.value)
  }

  /** From state `d` on no row is followed by, or stands beside, a role table that lets it in. */
  ghost predicate PairsBarred(tr: seq<State>, d: nat, id: UserId) {
    forall j, k :: d <= j <= k < |tr| ==> !Verdict(tr[j].db, tr[k].db, id).Admitted?
  }

  /** Losing the user, or every role of the user, for good bars all pairs. */
  lemma BarredForGood(tr: seq<State>, d: nat, id: UserId)
    requires UserBarred(tr, d, id) || RoleBarred(tr, d, id)
    ensures PairsBarred(tr, d, id)
  {}

  /** Revocation: once no row of the user goes with a role table of the same or a later instant, no request
      whose age test comes thirty seconds plus `gap` later, or more, is let in. With no time between read
      and store (`gap` zero) the bound is thirty seconds. */
  lemma Revocation(tr: seq<State>, acts: seq<Action>, gap: nat, d: nat, c: nat, i: nat, q: RequestId, id: UserId)
    requires IsRun(tr, acts) && Prompt(tr, gap)
    requires d < |tr| && PairsBarred(tr, d, id)
    requires TestedAt(tr, c, q, id) && tr[d].now + 30_000_000_000 + gap <= tr[c].now
    requires c < i < |tr| && q in tr[i].requests && tr[i].requests[q].Done?
    ensures !tr[i].requests[q].outcome.Admitted?
  {
    var c', k1, k2 := OutcomeOrigin(tr, acts, gap, i, q);
    OneTest(tr, acts, c, c', i, q, id, tr[i].requests[q].id);
    if k1 < d {
      ClockMonotone(tr, acts, k1, d);
    }
  }

  /** A request takes one age test, and keeps its user id. */
  lemma OneTest(tr: seq<State>, acts: seq<Action>, c: nat, c': nat, i: nat, q: RequestId, id: UserId, id': UserId)
    requires IsRun(tr, acts) && i < |tr| && q in tr[i].requests
    requires c < i && TestedAt(tr, c, q, id) && c' < i && TestedAt(tr, c', q, id')
    ensures c == c' && id == id' == tr[i].requests[q].id
  {
    assert tr[c + 1] == Step(tr[c], acts[c]);
    PastTest(tr, acts, c + 1, i, q);
    if c < c' { PastTest(tr, acts, c + 1, c', q); }
    if c' < c { PastTest(tr, acts, c' + 1, c, q); }
  }

  lemma {:induction false} PastTest(tr: seq<State>, acts: seq<Action>, i: nat, j: nat, q: RequestId)
    requires IsRun(tr, acts) && 0 < i <= j < |tr| && q in tr[i].requests
    requires !tr[i].requests[q].LookUp? && !tr[i].requests[q].TestAge?
    ensures q in tr[j].requests && !tr[j].requests[q].LookUp? && !tr[j].requests[q].TestAge?
    ensures tr[i].requests[q].id == tr[j].requests[q].id
    decreases j
  {
    if i < j {
      PastTest(tr, acts, i, j - 1, q);
      assert tr[j - 1 + 1] == Step(tr[j - 1], acts[j - 1]);
    }
  }

  /** In this run no write separates the two queries of a fetch. */
  ghost predicate SnapshotReads(tr: seq<State>) {
    forall reader: RequestId, id: UserId, user: User, k1: nat, k2: nat ::
      UserReadAt(tr, k1, reader, id, user.row) && RoleReadAt(tr, k2, reader, id, user)
      ==> tr[k1].db == tr[k2].db
  }

  /** When the two queries see one snapshot, losing access as a whole is enough. */
  lemma SnapshotRevocation(tr: seq<State>, acts: seq<Action>, gap: nat, d: nat, c: nat, i: nat, q: RequestId,
                           id: UserId)
    requires IsRun(tr, acts) && Prompt(tr, gap) && SnapshotReads(tr)
    requires d < |tr| && forall k :: d <= k < |tr| ==> !Verdict(tr[k].db, tr[k].db, id).Admitted?
    requires TestedAt(tr, c, q, id) && tr[d].now + 30_000_000_000 + gap <= tr[c].now
    requires c < i < |tr| && q in tr[i].requests && tr[i].requests[q].Done?
    ensures !tr[i].requests[q].outcome.Admitted?
  {
    var c', k1, k2 := OutcomeOrigin(tr, acts, gap, i, q);
    OneTest(tr, acts, c, c', i, q, id, tr[i].requests[q].id);
    if k1 < d {
      ClockMonotone(tr, acts, k1, d);
    }
    assert tr[k1].db == tr[k2].db;
  }

  /* ---------- exactness of the bounds ---------- */

  /** The steps of one request nothing interrupts, `wait` passing between its read and its store. */
  function Uninterrupted(s: State, q: RequestId, id: UserId, wait: nat): State {
    var looked := Step(Step(s, Arrive(q, id)), Advance(q));
    var read := Step(Step(Step(looked, Advance(q)), Advance(q)), Advance(q));
    Step(Step(Step(read, Tick(wait)), Advance(q)), Advance(q))
  }

  /** The sequential handler is the interleaved one with nothing in between. */
  lemma ServeIsUninterrupted(s: State, q: RequestId, id: UserId, wait: nat)
    requires q !in s.requests
    ensures var end := Uninterrupted(s, q, id, wait);
      var (entries, outcome) := Serve(s.cache, s.db, id, s.now, s.now + wait);
      end.cache == entries && At(end, q, Done(id, outcome))
  {
    var looked := Step(Step(s, Arrive(q, id)), Advance(q));
    assert At(looked, q, TestAge(id, if id in s.cache then Some(s.cache[id]) else None));
    var tested := Step(looked, Advance(q));
    var read := Step(Step(tested, Advance(q)), Advance(q));
    var ticked := Step(read, Tick(wait));
    if !(id in s.cache && Fresh(s.cache[id], s.now)) {
      assert At(tested, q, FetchUser(id));
      if id in s.db.users {
        assert At(ticked, q, StoreEntry(id, User(s.db.users[id], LoadRole(s.db, s.db.users[id]))));
      }
    }
  }
}
