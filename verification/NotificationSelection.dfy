/** Cutting four lists, merging, sorting and cutting again: when the result still starts with the newest entries
    of all. Items are compared by their times alone; where these are distinct, one order is the newest-first
    order, and an item is missing from the result exactly when its own list's cut dropped it. */
module NotificationSelection {
  import opened Sorting

  datatype Kind = Contact | Registration | Donation | Privacy

  /** An entry of the list. */
  datatype Item = Item(kind: Kind, id: string, createdAt: int, isNew: bool)

  /** One list per kind. */
  datatype Lists = Lists(contacts: seq<Item>, registrations: seq<Item>, donations: seq<Item>, privacy: seq<Item>)

  function Limit(kind: Kind): nat {
    if kind == Privacy then 3 else 5
  }

  function Cut<T>(s: seq<T>, n: nat): seq<T> {
    if |s| > n then s[..n] else s
  }

  lemma CutTwice<T>(s: seq<T>, n: nat, m: nat)
    requires m <= n
    ensures Cut(Cut(s, n), m) == Cut(s, m)
  {}

  function Of(l: Lists, kind: Kind): seq<Item> {
    match kind
    case Contact => l.contacts
    case Registration => l.registrations
    case Donation => l.donations
    case Privacy => l.privacy
  }

  function Merged(l: Lists): seq<Item> {
    l.contacts + l.registrations + l.donations + l.privacy
  }

  /** `x.CreatedAt.After(y.CreatedAt)`. */
  predicate Newer(x: Item, y: Item) {
    x.createdAt > y.createdAt
  }

  lemma {:induction false} InsertByTime(s: seq<Item>, x: Item)
    requires Sorted(s, Newer)
    ensures Sorted(Insert(s, x, Newer), Newer)
  {
    if s != [] && Newer(x, s[|s| - 1]) {
      var init, last := s[..|s| - 1], s[|s| - 1];
      var r := Insert(init, x, Newer);
      InsertByTime(init, x);
      InsertPermutes(init, x, Newer);
      forall i | 0 <= i < |r| ensures !Newer(last, r[i]) {
        assert r[i] in multiset(r);
        assert r[i] in multiset(init) || r[i] == x;
      }
    } else if s != [] {
      forall i | 0 <= i < |s| ensures !Newer(x, s[i]) {
        assert i < |s| - 1 ==> !Newer(s[|s| - 1], s[i]);
      }
    }
  }

  lemma {:induction false} SortingByTime(s: seq<Item>)
    ensures Sorted(InsertionSorted(s, Newer), Newer)
  {
    if s != [] {
      SortingByTime(s[..|s| - 1]);
      InsertByTime(InsertionSorted(s[..|s| - 1], Newer), s[|s| - 1]);
    }
  }

  predicate DistinctTimes(s: seq<Item>) {
    forall i, j :: 0 <= i < j < |s| ==> s[i].createdAt != s[j].createdAt
  }

  /** Newest first, no two times equal. */
  ghost predicate StrictlyDescending(s: seq<Item>) {
    forall i, j :: 0 <= i < j < |s| ==> s[i].createdAt > s[j].createdAt
  }

  lemma StrictFromDistinct(s: seq<Item>)
    requires DistinctTimes(s) && Sorted(s, Newer)
    ensures StrictlyDescending(s)
  {
    forall i, j | 0 <= i < j < |s| ensures s[i].createdAt > s[j].createdAt {
      assert !Newer(s[j], s[i]);
    }
  }

  /* ---------- members and sizes ---------- */

  lemma SameMembers<T>(s: seq<T>, t: seq<T>, x: T)
    requires multiset(s) == multiset(t)
    ensures x in s <==> x in t
  {
    assert x in s <==> x in multiset(s);
    assert x in t <==> x in multiset(t);
  }

  function Without<T>(t: seq<T>, i: nat): seq<T>
    requires i < |t|
  {
    t[..i] + t[i + 1..]
  }

  lemma WithoutMultiset<T>(t: seq<T>, i: nat)
    requires i < |t|
    ensures multiset(Without(t, i)) == multiset(t) - multiset{t[i]}
    ensures multiset(t) == multiset(Without(t, i)) + multiset{t[i]}
  {
    assert t == t[..i] + [t[i]] + t[i + 1..];
  }

  lemma SameWithout<T>(s: seq<T>, t: seq<T>, i: nat, j: nat)
    requires i < |s| && j < |t| && s[i] == t[j]
    ensures multiset(s) == multiset(t) <==> multiset(Without(s, i)) == multiset(Without(t, j))
  {
    WithoutMultiset(s, i);
    WithoutMultiset(t, j);
  }

  lemma WithoutIsDistinct(s: seq<Item>, i: nat, x: Item)
    requires i < |s| && DistinctTimes(s)
    ensures DistinctTimes(Without(s, i)) && (x in Without(s, i) ==> x.createdAt != s[i].createdAt)
  {
    var r := Without(s, i);
    assert forall k :: 0 <= k < |r| ==> r[k] == s[if k < i then k else k + 1];
  }

  lemma {:induction false} DistinctPermutation(s: seq<Item>, t: seq<Item>)
    requires multiset(s) == multiset(t) && DistinctTimes(s)
    ensures DistinctTimes(t)
    decreases |s|
  {
    if t != [] {
      SameMembers(s, t, t[0]);
      var i :| 0 <= i < |s| && s[i] == t[0];
      SameWithout(s, t, i, 0);
      assert Without(t, 0) == t[1..];
      WithoutIsDistinct(s, i, t[0]);
      hide DistinctTimes, Without;
      DistinctPermutation(Without(s, i), t[1..]);
      forall x | x in t[1..] ensures x.createdAt != t[0].createdAt {
        SameMembers(Without(s, i), t[1..], x);
        WithoutIsDistinct(s, i, x);
      }
      DistinctFromTail(t);
    }
  }

  lemma DistinctFromTail(t: seq<Item>)
    requires t != [] && DistinctTimes(t[1..]) && forall x :: x in t[1..] ==> x.createdAt != t[0].createdAt
    ensures DistinctTimes(t)
  {
    forall i, j | 0 <= i < j < |t| ensures t[i].createdAt != t[j].createdAt {
      assert t[j] == t[1..][j - 1];
      if i > 0 { assert t[i] == t[1..][i - 1]; }
    }
  }

  function Elements<T>(s: seq<T>): set<T> {
    set x | x in s
  }

  lemma {:induction false} ElementsAtMost<T>(s: seq<T>)
    ensures |Elements(s)| <= |s|
  {
    if s != [] {
      ElementsAtMost(s[1..]);
      assert Elements(s) == {s[0]} + Elements(s[1..]);
    }
  }

  lemma {:induction false} ElementsOfDistinct(s: seq<Item>)
    requires DistinctTimes(s)
    ensures |Elements(s)| == |s|
  {
    if s != [] {
      ElementsOfDistinct(s[1..]);
      assert Elements(s) == {s[0]} + Elements(s[1..]);
    }
  }

  lemma CardinalityMonotone<T>(s: set<T>, t: set<T>)
    requires s <= t
    ensures |s| <= |t|
  {
    assert t == s + (t - s);
  }

  function OfKind(s: seq<Item>, kind: Kind): set<Item> {
    set x | x in s && x.kind == kind
  }

  lemma OfKindAtMost(s: seq<Item>, kind: Kind)
    ensures |OfKind(s, kind)| <= |s|
  {
    ElementsAtMost(s);
    CardinalityMonotone(OfKind(s, kind), Elements(s));
  }

  /* ---------- selections that keep the newest of each kind ---------- */

  /** No more entries of any kind than its query fetches. */
  ghost predicate WithinLimits(s: seq<Item>) {
    forall kind: Kind :: |OfKind(s, kind)| <= Limit(kind)
  }

  /** `cut` holds entries of `global` only, within the limits, and drops one only when as many newer entries of
      its kind as the limit allows are there. */
  ghost predicate KeepsNewest(cut: seq<Item>, global: seq<Item>) {
    && (forall x :: x in cut ==> x in global)
    && (forall j :: 0 <= j < |global| && global[j] !in cut ==>
          Limit(global[j].kind) <= |OfKind(global[..j], global[j].kind)|)
    && WithinLimits(cut)
  }

  /** With the newest `m` within the limits, none of them was dropped. */
  lemma NewestAreKept(cut: seq<Item>, global: seq<Item>, m: nat, j: nat)
    requires KeepsNewest(cut, global) && StrictlyDescending(global)
    requires WithinLimits(Cut(global, m)) && j < |Cut(global, m)|
    ensures global[j] in cut
  {
    if global[j] !in cut {
      var kind, top := global[j].kind, Cut(global, m);
      assert |OfKind(top, kind)| <= Limit(kind);
      var before := OfKind(global[..j], kind);
      assert forall k :: 0 <= k <= j ==> top[k] == global[k];
      assert global[j] in top;
      assert before + {global[j]} <= OfKind(top, kind);
      CardinalityMonotone(before + {global[j]}, OfKind(top, kind));
    }
  }

  lemma NextAgrees(sorted: seq<Item>, global: seq<Item>, k: nat, p: nat, q: nat)
    requires StrictlyDescending(sorted) && StrictlyDescending(global) && k < |global|
    requires k <= |sorted| && forall i :: 0 <= i < k ==> sorted[i] == global[i]
    requires q < |sorted| && sorted[q] == global[k]
    requires k < |sorted| && p < |global| && global[p] == sorted[k]
    ensures sorted[k] == global[k]
  {}

  /** Below a common part an entry of one list is not in the common part of the other. */
  lemma NotAbove(sorted: seq<Item>, global: seq<Item>, k: nat, q: nat)
    requires StrictlyDescending(global) && k < |global| && q < |sorted|
    requires k <= |sorted| && forall i :: 0 <= i < k ==> sorted[i] == global[i]
    requires sorted[q].createdAt <= global[k].createdAt
    ensures k <= q
  {}

  /** Two strictly descending lists agree up to `m` when the first only holds entries of the second and
      holds its first `m`. */
  lemma {:induction false} TopAgrees(sorted: seq<Item>, global: seq<Item>, m: nat)
    requires StrictlyDescending(sorted) && StrictlyDescending(global) && forall x :: x in sorted ==> x in global
    requires m <= |global| && forall j :: 0 <= j < m ==> global[j] in sorted
    ensures m <= |sorted| && forall i :: 0 <= i < m ==> sorted[i] == global[i]
    decreases m
  {
    hide StrictlyDescending;
    if m > 0 {
      var k := m - 1;
      TopAgrees(sorted, global, k);
      var q :| 0 <= q < |sorted| && sorted[q] == global[k];
      NotAbove(sorted, global, k, q);
      assert sorted[k] in global;
      var p :| 0 <= p < |global| && global[p] == sorted[k];
      NextAgrees(sorted, global, k, p, q);
    }
  }

  /** A strictly descending list within another is no longer than it. */
  lemma WithinIsShorter(sorted: seq<Item>, global: seq<Item>)
    requires StrictlyDescending(sorted) && forall x :: x in sorted ==> x in global
    ensures |sorted| <= |global|
  {
    ElementsOfDistinct(sorted);
    ElementsAtMost(global);
    CardinalityMonotone(Elements(sorted), Elements(global));
  }

  lemma TopWithinLimits(cut: seq<Item>, global: seq<Item>, sorted: seq<Item>, m: nat)
    requires KeepsNewest(cut, global) && StrictlyDescending(global) && StrictlyDescending(sorted)
    requires forall x :: x in sorted <==> x in cut
    requires WithinLimits(Cut(global, m))
    ensures Cut(sorted, m) == Cut(global, m)
  {
    forall j | 0 <= j < |Cut(global, m)| ensures global[j] in sorted {
      NewestAreKept(cut, global, m, j);
    }
    TopAgrees(sorted, global, |Cut(global, m)|);
    WithinIsShorter(sorted, global);
  }

  lemma PartWithinLimits(part: seq<Item>, whole: seq<Item>)
    requires WithinLimits(whole) && forall x :: x in part ==> x in whole
    ensures WithinLimits(part)
  {
    forall kind: Kind ensures |OfKind(part, kind)| <= Limit(kind) {
      CardinalityMonotone(OfKind(part, kind), OfKind(whole, kind));
      assert |OfKind(whole, kind)| <= Limit(kind);
    }
  }

  /** Top-m agreement for any such selection, for every m. */
  lemma TopOfSelection(cut: seq<Item>, global: seq<Item>, sorted: seq<Item>, m: nat)
    requires KeepsNewest(cut, global) && StrictlyDescending(global) && StrictlyDescending(sorted)
    requires forall x :: x in sorted <==> x in cut
    ensures Cut(sorted, m) == Cut(global, m) <==> WithinLimits(Cut(global, m))
  {
    if WithinLimits(Cut(global, m)) {
      TopWithinLimits(cut, global, sorted, m);
    } else if Cut(sorted, m) == Cut(global, m) {
      assert forall x :: x in Cut(sorted, m) ==> x in sorted;
      PartWithinLimits(Cut(global, m), cut);
    }
  }

  /** Up to five entries are within the limits when at most three are privacy requests. */
  lemma FewWithinLimits(s: seq<Item>)
    requires |s| <= 5
    ensures WithinLimits(s) <==> |OfKind(s, Privacy)| <= 3
  {
    forall kind: Kind ensures |OfKind(s, kind)| <= 5 { OfKindAtMost(s, kind); }
    hide OfKind;
    assert WithinLimits(s) ==> |OfKind(s, Privacy)| <= Limit(Privacy);
  }

  /* ---------- cutting each list is such a selection ---------- */

  /** `items` is the cut of an arrangement, newest first, of `pending`. */
  ghost predicate CutOf(limit: nat, pending: seq<Item>, items: seq<Item>) {
    exists ordered: seq<Item> :: ArrangedAndCut(limit, pending, ordered, items)
  }

  ghost predicate ArrangedAndCut(limit: nat, pending: seq<Item>, ordered: seq<Item>, items: seq<Item>) {
    multiset(ordered) == multiset(pending) && Sorted(ordered, Newer) && items == Cut(ordered, limit)
  }

  predicate WellKinded(l: Lists) {
    forall kind, i :: 0 <= i < |Of(l, kind)| ==> Of(l, kind)[i].kind == kind
  }

  /** All pending entries in `pending`, the four cuts in `f`, and the whole in its one newest-first order. */
  ghost predicate Selection(pending: Lists, f: Lists, global: seq<Item>) {
    && WellKinded(pending)
    && (forall kind :: CutOf(Limit(kind), Of(pending, kind), Of(f, kind)))
    && DistinctTimes(Merged(pending))
    && multiset(global) == multiset(Merged(pending)) && StrictlyDescending(global)
  }

  function Offset(l: Lists, kind: Kind): nat {
    match kind
    case Contact => 0
    case Registration => |l.contacts|
    case Donation => |l.contacts| + |l.registrations|
    case Privacy => |l.contacts| + |l.registrations| + |l.donations|
  }

  lemma MergedAt(l: Lists, kind: Kind, i: nat)
    requires i < |Of(l, kind)|
    ensures Offset(l, kind) + i < |Merged(l)| && Merged(l)[Offset(l, kind) + i] == Of(l, kind)[i]
  {}

  lemma Locate(l: Lists, i: nat) returns (kind: Kind, local: nat)
    requires i < |Merged(l)|
    ensures local < |Of(l, kind)| && i == Offset(l, kind) + local && Merged(l)[i] == Of(l, kind)[local]
  {
    kind := if i < Offset(l, Registration) then Contact
    else if i < Offset(l, Donation) then Registration
    else if i < Offset(l, Privacy) then Donation
    else Privacy;
    local := i - Offset(l, kind);
  }

  lemma MergedMembers(l: Lists, x: Item)
    requires WellKinded(l)
    ensures x in Merged(l) <==> x in Of(l, x.kind)
  {
    if x in Merged(l) {
      var i :| 0 <= i < |Merged(l)| && Merged(l)[i] == x;
      var kind, local := Locate(l, i);
    }
    if x in Of(l, x.kind) {
      var i :| 0 <= i < |Of(l, x.kind)| && Of(l, x.kind)[i] == x;
      MergedAt(l, x.kind, i);
    }
  }

  lemma KindIsDistinct(l: Lists, kind: Kind)
    requires DistinctTimes(Merged(l))
    ensures DistinctTimes(Of(l, kind))
  {
    forall i, j | 0 <= i < j < |Of(l, kind)| ensures Of(l, kind)[i].createdAt != Of(l, kind)[j].createdAt {
      MergedAt(l, kind, i);
      MergedAt(l, kind, j);
    }
  }

  lemma KeptItems(limit: nat, pending: seq<Item>, items: seq<Item>)
    requires CutOf(limit, pending, items) && DistinctTimes(pending)
    ensures DistinctTimes(items) && |items| == |Cut(pending, limit)| && forall x :: x in items ==> x in pending
  {
    var ordered: seq<Item> :| ArrangedAndCut(limit, pending, ordered, items);
    DistinctPermutation(pending, ordered);
    assert |ordered| == |multiset(ordered)| == |pending|;
    forall x | x in items ensures x in pending { SameMembers(ordered, pending, x); }
  }

  /** A dropped entry is older than every kept one, and the cut is full. */
  lemma DroppedIsOlder(limit: nat, pending: seq<Item>, items: seq<Item>, x: Item)
    requires CutOf(limit, pending, items) && DistinctTimes(pending) && x in pending && x !in items
    ensures |items| == limit && forall y :: y in items ==> y.createdAt > x.createdAt
  {
    var ordered: seq<Item> :| ArrangedAndCut(limit, pending, ordered, items);
    SameMembers(ordered, pending, x);
    DistinctPermutation(pending, ordered);
    StrictFromDistinct(ordered);
    var d :| 0 <= d < |ordered| && ordered[d] == x;
    assert d >= |items|;
  }

  lemma DroppedItem(kind: Kind, pending: seq<Item>, items: seq<Item>, global: seq<Item>, j: nat)
    requires CutOf(Limit(kind), pending, items) && DistinctTimes(pending) && StrictlyDescending(global)
    requires forall x :: x in pending ==> x in global && x.kind == kind
    requires j < |global| && global[j] in pending && global[j] !in items
    ensures Limit(kind) <= |OfKind(global[..j], kind)|
  {
    DroppedIsOlder(Limit(kind), pending, items, global[j]);
    KeptItems(Limit(kind), pending, items);
    forall y | y in Elements(items) ensures y in OfKind(global[..j], kind) {
      var p :| 0 <= p < |global| && global[p] == y;
      assert p < j;
      assert global[..j][p] == y;
    }
    ElementsOfDistinct(items);
    CardinalityMonotone(Elements(items), OfKind(global[..j], kind));
  }

  lemma CutsAreWellKinded(pending: Lists, f: Lists, global: seq<Item>)
    requires Selection(pending, f, global)
    ensures WellKinded(f) && forall kind, x :: x in Of(f, kind) ==> x in Of(pending, kind)
  {
    forall kind: Kind ensures forall x :: x in Of(f, kind) ==> x in Of(pending, kind) {
      KindIsDistinct(pending, kind);
      KeptItems(Limit(kind), Of(pending, kind), Of(f, kind));
    }
    forall kind: Kind, i | 0 <= i < |Of(f, kind)| ensures Of(f, kind)[i].kind == kind {
      assert Of(f, kind)[i] in Of(pending, kind);
    }
  }

  lemma SelectionMember(pending: Lists, f: Lists, global: seq<Item>, x: Item)
    requires Selection(pending, f, global)
    ensures x in global <==> x in Of(pending, x.kind)
    ensures x in Merged(f) <==> x in Of(f, x.kind)
    ensures x in Merged(f) ==> x in global
  {
    SameMembers(global, Merged(pending), x);
    MergedMembers(pending, x);
    CutsAreWellKinded(pending, f, global);
    MergedMembers(f, x);
  }

  lemma DroppedFromGlobal(pending: Lists, f: Lists, global: seq<Item>, j: nat)
    requires Selection(pending, f, global) && j < |global| && global[j] !in Merged(f)
    ensures Limit(global[j].kind) <= |OfKind(global[..j], global[j].kind)|
  {
    var kind := global[j].kind;
    forall x | x in Of(pending, kind) ensures x in global && x.kind == kind {
      SelectionMember(pending, f, global, x);
    }
    SelectionMember(pending, f, global, global[j]);
    KindIsDistinct(pending, kind);
    DroppedItem(kind, Of(pending, kind), Of(f, kind), global, j);
  }

  lemma SelectionKeepsNewest(pending: Lists, f: Lists, global: seq<Item>)
    requires Selection(pending, f, global)
    ensures KeepsNewest(Merged(f), global)
  {
    forall x | x in Merged(f) ensures x in global { SelectionMember(pending, f, global, x); }
    forall j | 0 <= j < |global| && global[j] !in Merged(f)
      ensures Limit(global[j].kind) <= |OfKind(global[..j], global[j].kind)|
    {
      DroppedFromGlobal(pending, f, global, j);
    }
    forall kind: Kind ensures |OfKind(Merged(f), kind)| <= Limit(kind) {
      KindWithinLimit(pending, f, global, kind);
    }
  }

  lemma KindWithinLimit(pending: Lists, f: Lists, global: seq<Item>, kind: Kind)
    requires Selection(pending, f, global)
    ensures |OfKind(Merged(f), kind)| <= Limit(kind)
  {
    forall x | x in OfKind(Merged(f), kind) ensures x in Elements(Of(f, kind)) {
      SelectionMember(pending, f, global, x);
    }
    CardinalityMonotone(OfKind(Merged(f), kind), Elements(Of(f, kind)));
    ElementsAtMost(Of(f, kind));
    KindIsDistinct(pending, kind);
    KeptItems(Limit(kind), Of(pending, kind), Of(f, kind));
  }

  /** No two entries of the merged cuts share a time. */
  lemma MergedIsDistinct(pending: Lists, f: Lists, global: seq<Item>)
    requires Selection(pending, f, global)
    ensures DistinctTimes(Merged(f))
  {
    var items := Merged(f);
    CutsAreWellKinded(pending, f, global);
    forall i, j | 0 <= i < j < |items| ensures items[i].createdAt != items[j].createdAt {
      var kind, local := Locate(f, i);
      var kind', local' := Locate(f, j);
      if kind == kind' {
        KindIsDistinct(pending, kind);
        KeptItems(Limit(kind), Of(pending, kind), Of(f, kind));
      } else {
        SelectionMember(pending, f, global, items[i]);
        SelectionMember(pending, f, global, items[j]);
        var p :| 0 <= p < |global| && global[p] == items[i];
        var q :| 0 <= q < |global| && global[q] == items[j];
        assert p != q;
      }
    }
  }

  /** Top-m agreement, exactly and for every `m`: the sorted merge starts with the newest `m` pending entries of
      all four kinds if and only if those hold no more of any kind than its query fetches. */
  lemma TopIsGlobal(pending: Lists, f: Lists, global: seq<Item>, sorted: seq<Item>, m: nat)
    requires Selection(pending, f, global)
    requires multiset(sorted) == multiset(Merged(f)) && Sorted(sorted, Newer)
    ensures Cut(sorted, m) == Cut(global, m) <==> WithinLimits(Cut(global, m))
  {
    SelectionKeepsNewest(pending, f, global);
    MergedIsDistinct(pending, f, global);
    DistinctPermutation(Merged(f), sorted);
    StrictFromDistinct(sorted);
    forall x ensures x in sorted <==> x in Merged(f) { SameMembers(sorted, Merged(f), x); }
    TopOfSelection(Merged(f), global, sorted, m);
  }

  lemma FewPrivacy(pending: Lists, f: Lists, global: seq<Item>, m: nat)
    requires Selection(pending, f, global)
    ensures |OfKind(Cut(global, m), Privacy)| <= |pending.privacy|
  {
    forall x | x in OfKind(Cut(global, m), Privacy) ensures x in Elements(pending.privacy) {
      SelectionMember(pending, f, global, x);
    }
    ElementsAtMost(pending.privacy);
    CardinalityMonotone(OfKind(Cut(global, m), Privacy), Elements(pending.privacy));
  }
}
