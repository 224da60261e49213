/** Exactly when the admin middleware can let a request in, and when a store is a step back. */
module AdminAdmission {
  import opened GoStrings
  import opened AdminAuth
  import opened AdminHistories

  /* ---------- the condition on the history ---------- */

  /** A request tested at moment `c` fetches by itself: the row at `j`, the role at `k`. */
  predicate OwnFetch(h: seq<Moment>, gap: nat, c: nat, j: nat, k: nat)
    requires j <= k < |h|
  {
    c <= j && h[k].now <= h[j].now + gap
  }

  /** Some request fetched at `j` and `k` and stored at `m`, and the entry is young enough at `c`. */
  predicate HitOf(h: seq<Moment>, gap: nat, c: nat, j: nat, k: nat, m: nat)
    requires j <= k < |h| && c < |h|
  {
    k <= m <= c && h[m].now <= h[j].now + gap && h[c].now < h[m].now + 30_000_000_000
  }

  /** The row at `j` and the roles at `k` admit, and a request tested at `c` can be decided on them. */
  ghost predicate LetsIn(h: seq<Moment>, gap: nat, id: UserId, c: nat, j: nat, k: nat) {
    && j <= k < |h| && c < |h| && Verdict(h[j].db, h[k].db, id).Admitted?
    && (OwnFetch(h, gap, c, j, k) || exists m :: HitOf(h, gap, c, j, k, m))
  }

  ghost predicate Admittable(h: seq<Moment>, gap: nat, id: UserId, c: nat) {
    exists j, k :: LetsIn(h, gap, id, c, j, k)
  }

  /** Request `q`, tested at step `x`, which is moment `c`, is let in at step `i`. */
  ghost predicate AdmitsAt(h: seq<Moment>, gap: nat, id: UserId, c: nat, r: Run, x: nat, i: nat, q: RequestId) {
    && Over(h, r) && Prompt(r.tr, gap) && TestedAt(r.tr, x, q, id) && x < i < |r.tr| && r.at[x] == c
    && q in r.tr[i].requests && r.tr[i].requests[q].Done? && r.tr[i].requests[q].outcome.Admitted?
  }

  ghost predicate CanBeAdmitted(h: seq<Moment>, gap: nat, id: UserId, c: nat) {
    exists r, x, i, q :: AdmitsAt(h, gap, id, c, r, x, i, q)
  }

  /* ---------- every admission has such a pair ---------- */

  /** An admitted request was decided on some loaded user. */
  lemma {:induction false} AdmissionOrigin(tr: seq<State>, acts: seq<Action>, i: nat, q: RequestId)
    returns (o: Origin, c: nat)
    requires IsRun(tr, acts) && i < |tr| && q in tr[i].requests
    requires tr[i].requests[q].Done? && tr[i].requests[q].outcome.Admitted?
    ensures c < i && o.stored < i && TestedAt(tr, c, q, tr[i].requests[q].id)
    ensures OriginOf(tr, o, tr[i].requests[q].id, tr[i].requests[q].outcome.user)
    ensures HasAdminAccess(tr[i].requests[q].outcome.user)
    ensures (o.stored < c && tr[c].now < tr[o.stored].now + LIFETIME) || (c < o.userRead && o.reader == q)
    decreases i
  {
    RequestStep(tr, acts, i, q);
    hide IsRun, TestedAt, OriginOf;
    if At(tr[i - 1], q, tr[i].requests[q]) {
      o, c := AdmissionOrigin(tr, acts, i - 1, q);
    } else {
      assert tr[i - 1].requests[q].Decide?;
      o, c := DecisionOrigin(tr, acts, i - 1, q);
    }
  }

  lemma OriginVerdict(tr: seq<State>, o: Origin, id: UserId, user: User)
    requires OriginOf(tr, o, id, user) && HasAdminAccess(user)
    ensures Verdict(tr[o.userRead].db, tr[o.roleRead].db, id).Admitted?
    ensures tr[o.userRead].now == tr[o.userRead + 1].now
    ensures Holding(tr[o.userRead + 1], o.reader) && Holding(tr[o.stored], o.reader)
  {}

  lemma AdmissionIsLetIn(h: seq<Moment>, gap: nat, id: UserId, c: nat, r: Run, x: nat, i: nat, q: RequestId)
    requires AdmitsAt(h, gap, id, c, r, x, i, q)
    ensures Admittable(h, gap, id, c)
  {
    var o, x' := AdmissionOrigin(r.tr, r.acts, i, q);
    OneTest(r.tr, r.acts, x, x', i, q, id, r.tr[i].requests[q].id);
    OriginVerdict(r.tr, o, id, r.tr[i].requests[q].outcome.user);
    assert r.tr[o.stored].now <= r.tr[o.userRead + 1].now + gap;
    ClockMonotone(r.tr, r.acts, o.roleRead, o.stored);
    AtMonotone(h, r, o.userRead, o.roleRead);
    AtMonotone(h, r, o.roleRead, o.stored);
    var j, k, m := r.at[o.userRead], r.at[o.roleRead], r.at[o.stored];
    if o.stored < x {
      AtMonotone(h, r, o.stored, x);
      assert HitOf(h, gap, c, j, k, m);
    } else {
      AtMonotone(h, r, x, o.userRead);
      assert OwnFetch(h, gap, c, j, k);
    }
    assert LetsIn(h, gap, id, c, j, k);
  }

  /* ---------- such a pair makes an admission ---------- */

  /** The request that is tested at `c` and fetches by itself. */
  lemma OwnFetchAdmits(h: seq<Moment>, gap: nat, id: UserId, c: nat, j: nat, k: nat)
    requires History(h) && j <= k < |h| && c < |h| && Verdict(h[j].db, h[k].db, id).Admitted?
    requires OwnFetch(h, gap, c, j, k)
    ensures CanBeAdmitted(h, gap, id, c)
  {
    var lo, hi := h[j].now, h[k].now;
    var r0 := Start(h, lo, hi);
    hide Built, History, Step, Decision;
    var r1 := Begin(h, r0, 1, id, c, lo, hi);
    var r2 := Reach(h, r1, 1, TestAge(id, None), c, lo, hi);
    assert At(Last(r2), 1, FetchUser(id));
    var r3 := Fetch(h, r2, 1, id, j, k, k);
    BuiltLengths(h, r1, lo, hi);
    Conclude(h, gap, id, c, r1, r2, r3, 1, lo, hi);
  }

  /** The test seen at the end of `r1` and passed at the end of `r2`, and the admission at the end of `r3`. */
  lemma Conclude(h: seq<Moment>, gap: nat, id: UserId, c: nat, r1: Run, r2: Run, r3: Run, q: RequestId,
                 lo: nat, hi: nat)
    requires Built(h, r3, lo, hi) && hi <= lo + gap && Continues(r1, r2) && Continues(r2, r3)
    requires |r1.at| == |r1.tr| && |r2.tr| == |r1.tr| + 1 && |r2.tr| < |r3.tr| && Place(r1) == c
    requires q in Last(r1).requests && Last(r1).requests[q].TestAge? && Last(r1).requests[q].id == id
    requires q in Last(r2).requests && !Last(r2).requests[q].TestAge?
    requires q in Last(r3).requests && Last(r3).requests[q].Done? && Last(r3).requests[q].outcome.Admitted?
    ensures CanBeAdmitted(h, gap, id, c)
  {
    HeldWithinIsPrompt(r3.tr, lo, hi, gap);
    var x := |r1.tr| - 1;
    assert r3.tr[x] == Last(r1) && r3.tr[x + 1] == Last(r2) && r3.at[x] == c;
    assert AdmitsAt(h, gap, id, c, r3, x, |r3.tr| - 1, q);
  }

  /** The request that is tested at `c` and hits what another one stored at `m`. */
  lemma HitAdmits(h: seq<Moment>, gap: nat, id: UserId, c: nat, j: nat, k: nat, m: nat)
    requires History(h) && j <= k < |h| && c < |h| && Verdict(h[j].db, h[k].db, id).Admitted?
    requires HitOf(h, gap, c, j, k, m)
    ensures CanBeAdmitted(h, gap, id, c)
  {
    var lo, hi := h[j].now, h[m].now;
    var user := Joined(h, id, j, k);
    assert Decision(user).Admitted?;
    hide Built, History, Step, Decision, Verdict, Joined;
    var r0 := Stored(h, id, j, k, m);
    var r1 := Begin(h, r0, 2, id, c, lo, hi);
    var r2 := Reach(h, r1, 2, TestAge(id, Some(CachedAdminUser(user, h[m].now))), c, lo, hi);
    assert At(Last(r2), 2, Decide(id, user));
    var r3 := Reach(h, r2, 2, Decide(id, user), c, lo, hi);
    BuiltLengths(h, r1, lo, hi);
    Conclude(h, gap, id, c, r1, r2, r3, 2, lo, hi);
  }

  /* ---------- main results ---------- */

  /** Admission, exactly. Over a given history of clock and tables some prompt run lets in a request tested at
      moment `c` if and only if some row goes with a role table of the same or a later moment, at most `gap`
      later, and either both are read after the test, or both were stored, at most `gap` after the row was
      read and less than thirty seconds before the test. */
  lemma AdmissionExact(h: seq<Moment>, gap: nat, id: UserId, c: nat)
    requires History(h)
    ensures CanBeAdmitted(h, gap, id, c) <==> Admittable(h, gap, id, c)
  {
    hide AdmitsAt, History, Verdict;
    if CanBeAdmitted(h, gap, id, c) {
      var r, x, i, q :| AdmitsAt(h, gap, id, c, r, x, i, q);
      AdmissionIsLetIn(h, gap, id, c, r, x, i, q);
    }
    if Admittable(h, gap, id, c) {
      var j, k :| LetsIn(h, gap, id, c, j, k);
      if OwnFetch(h, gap, c, j, k) {
        OwnFetchAdmits(h, gap, id, c, j, k);
      } else {
        var m :| HitOf(h, gap, c, j, k, m);
        HitAdmits(h, gap, id, c, j, k, m);
      }
    }
  }

  /** The converse of revocation: one admitting pair at most `gap` apart, however late, and some prompt run
      over the same history lets a request in that is tested at the pair's first moment. */
  lemma LatePairAdmits(h: seq<Moment>, gap: nat, id: UserId, j: nat, k: nat)
    requires History(h) && j <= k < |h| && h[k].now <= h[j].now + gap && Verdict(h[j].db, h[k].db, id).Admitted?
    ensures CanBeAdmitted(h, gap, id, j)
  {
    OwnFetchAdmits(h, gap, id, j, j, k);
  }

  /* ---------- steps back in the cache ---------- */

  /** A request about to store holds its read in exactly the states since. */
  lemma {:induction false} HoldingSpan(tr: seq<State>, acts: seq<Action>, i: nat, q: RequestId, k: nat)
    requires IsRun(tr, acts) && i < |tr| && Holding(tr[i], q) && k < i
    requires k + 1 < |tr| && q in tr[k].requests && tr[k].requests[q].FetchUser? && Holding(tr[k + 1], q)
    ensures forall x :: 0 <= x <= i ==> (Holding(tr[x], q) <==> k < x)
  {
    forall x | 0 <= x <= i ensures Holding(tr[x], q) <==> k < x {
      if x <= k {
        NotHeldBefore(tr, acts, x, k, q);
      } else {
        HeldUntil(tr, acts, x, i, q, k);
      }
    }
  }

  /** How far a request has come. */
  function Progress(r: Request): nat {
    match r
    case LookUp(_) => 0
    case TestAge(_, _) => 1
    case FetchUser(_) => 2
    case FetchRole(_, _) => 3
    case StoreEntry(_, _) => 4
    case Decide(_, _) => 5
    case Done(_, _) => 6
  }

  lemma {:induction false} OnlyForward(tr: seq<State>, acts: seq<Action>, i: nat, j: nat, q: RequestId)
    requires IsRun(tr, acts) && i <= j < |tr| && q in tr[i].requests
    ensures q in tr[j].requests && Progress(tr[i].requests[q]) <= Progress(tr[j].requests[q])
    decreases j
  {
    if i < j {
      OnlyForward(tr, acts, i, j - 1, q);
      assert tr[j - 1 + 1] == Step(tr[j - 1], acts[j - 1]);
    }
  }

  lemma NotHeldBefore(tr: seq<State>, acts: seq<Action>, x: nat, k: nat, q: RequestId)
    requires IsRun(tr, acts) && x <= k < |tr| && q in tr[k].requests && tr[k].requests[q].FetchUser?
    ensures !Holding(tr[x], q)
  {
    hide IsRun;
    if q in tr[x].requests { OnlyForward(tr, acts, x, k, q); }
  }

  lemma HeldUntil(tr: seq<State>, acts: seq<Action>, x: nat, i: nat, q: RequestId, k: nat)
    requires IsRun(tr, acts) && k < x <= i < |tr| && Holding(tr[k + 1], q) && Holding(tr[i], q)
    ensures Holding(tr[x], q)
  {
    hide IsRun;
    OnlyForward(tr, acts, k + 1, x, q);
    OnlyForward(tr, acts, x, i, q);
  }

  /** A step back, exactly. The store that request `q` makes next puts an older read over the present entry if
      and only if `q` already held its read when the row of the present entry was read. */
  lemma OverwritesNewerIff(tr: seq<State>, acts: seq<Action>, i: nat, q: RequestId)
    returns (own: Origin, present: Origin)
    requires IsRun(tr, acts) && i < |tr| && q in tr[i].requests && tr[i].requests[q].StoreEntry?
    requires tr[i].requests[q].id in tr[i].cache
    ensures var id, user := tr[i].requests[q].id, tr[i].requests[q].user;
      && own.reader == q && own.stored == i && OriginOf(tr, own, id, user)
      && present.stored < i && OriginOf(tr, present, id, tr[i].cache[id].user)
      && tr[present.stored].now == tr[i].cache[id].fetchedAt
      && (own.userRead < present.userRead <==> Holding(tr[present.userRead], q))
  {
    var id := tr[i].requests[q].id;
    own := FetchOrigin(tr, acts, i, q);
    present := EntryOrigin(tr, acts, i, id);
    HoldingSpan(tr, acts, i, q, own.userRead);
  }
}
