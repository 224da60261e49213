/** The admin dashboard's notification list: the newest pending rows of four tables, each table cut
    on its own, merged, sorted and cut again. */
module Notifications {
  import opened Sorting
  import opened NotificationSelection

  /** A row as far as the list looks at it; its printed identifier, and for privacy requests how far the person
      is verified. */
  datatype Row = Row(id: string, status: string, verification: string, createdAt: int)

  /** Rows of the four tables, or the rows four queries fetched. */
  datatype Rows = Rows(contacts: seq<Row>, registrations: seq<Row>, donations: seq<Row>, privacy: seq<Row>)

  const MAX_ITEMS: nat := 10

  predicate Pending(kind: Kind, row: Row) {
    match kind
    case Contact => row.status == "new" || row.status == "pending"
    case Registration => row.status == "pending"
    case Donation => row.status == "pending" || row.status == "pending_verification"
    case Privacy => row.status == "open"
  }

  function ItemOf(kind: Kind, row: Row): Item {
    match kind
    case Contact => Item(kind, "contact-" + row.id, row.createdAt, row.status == "new")
    case Registration => Item(kind, "reg-" + row.id, row.createdAt, true)
    case Donation => Item(kind, "don-" + row.id, row.createdAt, true)
    case Privacy => Item(kind, "privacy-" + row.id, row.createdAt, row.verification == "unverified")
  }

  function ItemsOf(kind: Kind, rows: seq<Row>): (items: seq<Item>)
    ensures |items| == |rows|
    ensures forall i :: 0 <= i < |rows| ==> items[i].kind == kind && items[i].createdAt == rows[i].createdAt
    ensures forall i :: 0 <= i < |rows| ==> items[i] == ItemOf(kind, rows[i])
  {
    if rows == [] then [] else ItemsOf(kind, rows[..|rows| - 1]) + [ItemOf(kind, rows[|rows| - 1])]
  }

  function Items(r: Rows): Lists {
    Lists(ItemsOf(Contact, r.contacts), ItemsOf(Registration, r.registrations),
          ItemsOf(Donation, r.donations), ItemsOf(Privacy, r.privacy))
  }

  method AppendItems(items: seq<Item>, kind: Kind, rows: seq<Row>) returns (all: seq<Item>)
    ensures all == items + ItemsOf(kind, rows)
  {
    all := items;
    for i := 0 to |rows|
      invariant all == items + ItemsOf(kind, rows[..i])
    {
      all := all + [ItemOf(kind, rows[i])];
      assert rows[..i + 1][..i] == rows[..i];
    }
    assert rows[..|rows|] == rows;
  }

  method MergeItems(f: Rows) returns (all: seq<Item>)
    ensures all == Merged(Items(f))
  {
    hide ItemsOf;
    all := AppendItems([], Contact, f.contacts);
    all := AppendItems(all, Registration, f.registrations);
    all := AppendItems(all, Donation, f.donations);
    all := AppendItems(all, Privacy, f.privacy);
  }

  /** Sorting by time, newest first; the library promises no order among equal times. */
  method SortItems(all: seq<Item>) returns (sorted: seq<Item>)
    ensures multiset(sorted) == multiset(all) && Sorted(sorted, Newer)
  {
    var a := new Item[|all|](i requires 0 <= i < |all| => all[i]);
    assert a[..] == all;
    SliceStable(a, Newer);
    sorted := a[..];
    SortingPermutes(all, Newer);
    SortingByTime(all);
  }

  /** `items` is the beginning of some newest-first arrangement of what was fetched. */
  ghost predicate Listed(f: Rows, items: seq<Item>) {
    exists sorted: seq<Item> :: Arranges(f, sorted) && items == Cut(sorted, MAX_ITEMS)
  }

  ghost predicate Arranges(f: Rows, sorted: seq<Item>) {
    multiset(sorted) == multiset(Merged(Items(f))) && Sorted(sorted, Newer)
  }

  /** The handler after its queries. */
  method GetAdminNotifications(f: Rows) returns (items: seq<Item>)
    ensures Listed(f, items)
  {
    var all := MergeItems(f);
    items := SortItems(all);
    assert Arranges(f, items) && (|items| <= MAX_ITEMS ==> items == Cut(items, MAX_ITEMS));
    if |items| > MAX_ITEMS {
      items := items[..MAX_ITEMS];
    }
  }

  /* ---------- the queries ---------- */

  function PendingRows(kind: Kind, table: seq<Row>): seq<Row> {
    if table == [] then []
    else if Pending(kind, table[0]) then [table[0]] + PendingRows(kind, table[1..])
    else PendingRows(kind, table[1..])
  }

  ghost predicate NewestFirst(rows: seq<Row>) {
    forall i, j :: 0 <= i < j < |rows| ==> rows[i].createdAt >= rows[j].createdAt
  }

  /** `rows` may come of the query over `table`: the pending rows, newest first, cut at the kind's limit. */
  ghost predicate QueryResult(kind: Kind, table: seq<Row>, rows: seq<Row>) {
    exists ordered: seq<Row> :: multiset(ordered) == multiset(PendingRows(kind, table)) && NewestFirst(ordered)
      && rows == Cut(ordered, Limit(kind))
  }

  ghost predicate FetchedFrom(f: Rows, t: Rows) {
    && QueryResult(Contact, t.contacts, f.contacts) && QueryResult(Registration, t.registrations, f.registrations)
    && QueryResult(Donation, t.donations, f.donations) && QueryResult(Privacy, t.privacy, f.privacy)
  }

  /** Every pending row of the four tables, uncut. */
  function AllPending(t: Rows): Rows {
    Rows(PendingRows(Contact, t.contacts), PendingRows(Registration, t.registrations),
         PendingRows(Donation, t.donations), PendingRows(Privacy, t.privacy))
  }

  /** All pending rows, in the one newest-first order their distinct times allow. */
  ghost predicate GlobalOrder(t: Rows, global: seq<Item>) {
    && DistinctTimes(Merged(Items(AllPending(t))))
    && multiset(global) == multiset(Merged(Items(AllPending(t)))) && StrictlyDescending(global)
  }

  lemma {:induction false} ItemsOfWithout(kind: Kind, rows: seq<Row>, i: nat)
    requires i < |rows|
    ensures ItemsOf(kind, Without(rows, i)) == Without(ItemsOf(kind, rows), i)
  {}

  lemma {:induction false} ItemsOfPermutes(kind: Kind, rows: seq<Row>, other: seq<Row>)
    requires multiset(rows) == multiset(other)
    ensures multiset(ItemsOf(kind, rows)) == multiset(ItemsOf(kind, other))
    decreases |rows|
  {
    if rows == [] {
      assert |other| == |multiset(other)| == 0;
    } else {
      SameMembers(rows, other, rows[0]);
      var i :| 0 <= i < |other| && other[i] == rows[0];
      SameWithout(rows, other, 0, i);
      ItemsOfPermutes(kind, Without(rows, 0), Without(other, i));
      ItemsOfWithout(kind, rows, 0);
      ItemsOfWithout(kind, other, i);
      SameWithout(ItemsOf(kind, rows), ItemsOf(kind, other), 0, i);
    }
  }

  lemma ItemsOfCut(kind: Kind, rows: seq<Row>, n: nat)
    ensures ItemsOf(kind, Cut(rows, n)) == Cut(ItemsOf(kind, rows), n)
  {}

  lemma ItemsInOrder(kind: Kind, rows: seq<Row>)
    requires NewestFirst(rows)
    ensures Sorted(ItemsOf(kind, rows), Newer)
  {}

  /** A query result, seen as items, is a cut of the pending items. */
  lemma QueryCuts(kind: Kind, table: seq<Row>, rows: seq<Row>)
    requires QueryResult(kind, table, rows)
    ensures CutOf(Limit(kind), ItemsOf(kind, PendingRows(kind, table)), ItemsOf(kind, rows))
    ensures |rows| == |Cut(PendingRows(kind, table), Limit(kind))|
  {
    var pending := PendingRows(kind, table);
    var ordered: seq<Row> :| multiset(ordered) == multiset(pending) && NewestFirst(ordered)
      && rows == Cut(ordered, Limit(kind));
    assert |ordered| == |multiset(ordered)| == |pending|;
    ItemsOfPermutes(kind, ordered, pending);
    ItemsOfCut(kind, ordered, Limit(kind));
    ItemsInOrder(kind, ordered);
    assert ArrangedAndCut(Limit(kind), ItemsOf(kind, pending), ItemsOf(kind, ordered), ItemsOf(kind, rows));
  }

  lemma KindCut(t: Rows, f: Rows, kind: Kind)
    requires FetchedFrom(f, t)
    ensures CutOf(Limit(kind), Of(Items(AllPending(t)), kind), Of(Items(f), kind))
    ensures |Of(Items(f), kind)| == Min(Limit(kind), |Of(Items(AllPending(t)), kind)|)
  {
    match kind
    case Contact => QueryCuts(kind, t.contacts, f.contacts);
    case Registration => QueryCuts(kind, t.registrations, f.registrations);
    case Donation => QueryCuts(kind, t.donations, f.donations);
    case Privacy => QueryCuts(kind, t.privacy, f.privacy);
  }

  lemma PendingIsWellKinded(t: Rows)
    ensures WellKinded(Items(AllPending(t)))
  {
    hide PendingRows;
  }

  lemma QueriesSelect(t: Rows, f: Rows, global: seq<Item>)
    requires FetchedFrom(f, t) && GlobalOrder(t, global)
    ensures Selection(Items(AllPending(t)), Items(f), global)
  {
    PendingIsWellKinded(t);
    hide FetchedFrom, CutOf, ItemsOf, PendingRows, WellKinded, Merged;
    forall kind: Kind ensures CutOf(Limit(kind), Of(Items(AllPending(t)), kind), Of(Items(f), kind)) {
      KindCut(t, f, kind);
    }
  }

  lemma MergedLength(l: Lists)
    ensures |Merged(l)| == |l.contacts| + |l.registrations| + |l.donations| + |l.privacy|
  {}

  lemma ArrangedLength(t: Rows, f: Rows, sorted: seq<Item>)
    requires FetchedFrom(f, t) && Arranges(f, sorted)
    ensures var p := AllPending(t);
      |sorted| == Min(5, |p.contacts|) + Min(5, |p.registrations|) + Min(5, |p.donations|) + Min(3, |p.privacy|)
  {
    ArrangesLength(f, sorted);
    OfLengths(f);
    OfLengths(AllPending(t));
    Limits();
    hide *;
    KindCut(t, f, Contact);
    KindCut(t, f, Registration);
    KindCut(t, f, Donation);
    KindCut(t, f, Privacy);
  }

  lemma Limits()
    ensures Limit(Contact) == Limit(Registration) == Limit(Donation) == 5 && Limit(Privacy) == 3
  {}

  lemma OfLengths(r: Rows)
    ensures |Of(Items(r), Contact)| == |r.contacts| && |Of(Items(r), Registration)| == |r.registrations|
    ensures |Of(Items(r), Donation)| == |r.donations| && |Of(Items(r), Privacy)| == |r.privacy|
  {
    hide ItemsOf;
  }

  lemma ArrangesLength(f: Rows, sorted: seq<Item>)
    requires Arranges(f, sorted)
    ensures |sorted| == |f.contacts| + |f.registrations| + |f.donations| + |f.privacy|
  {
    MergedLength(Items(f));
    hide ItemsOf, Merged;
    assert |sorted| == |multiset(sorted)| == |Merged(Items(f))|;
  }

  /** The list is newest first and its length is that of the four cuts together, at most ten. */
  lemma ListLength(t: Rows, f: Rows, items: seq<Item>)
    requires FetchedFrom(f, t) && Listed(f, items)
    ensures var p := AllPending(t);
      |items| == Min(10,
        Min(5, |p.contacts|) + Min(5, |p.registrations|) + Min(5, |p.donations|) + Min(3, |p.privacy|))
    ensures forall i, j :: 0 <= i < j < |items| ==> items[i].createdAt >= items[j].createdAt
  {
    var sorted :| Arranges(f, sorted) && items == Cut(sorted, MAX_ITEMS);
    ArrangedLength(t, f, sorted);
    CutInOrder(f, sorted);
    hide *;
    CutLength(sorted);
  }

  lemma CutLength(s: seq<Item>)
    ensures |Cut(s, MAX_ITEMS)| == Min(MAX_ITEMS, |s|)
  {}

  lemma CutInOrder(f: Rows, sorted: seq<Item>)
    requires Arranges(f, sorted)
    ensures forall i, j :: 0 <= i < j < |Cut(sorted, MAX_ITEMS)| ==>
      Cut(sorted, MAX_ITEMS)[i].createdAt >= Cut(sorted, MAX_ITEMS)[j].createdAt
  {
    hide Merged, Items;
    forall i, j | 0 <= i < j < |Cut(sorted, MAX_ITEMS)|
      ensures Cut(sorted, MAX_ITEMS)[i].createdAt >= Cut(sorted, MAX_ITEMS)[j].createdAt
    {
      assert !Newer(sorted[j], sorted[i]);
    }
  }

  function Min(a: nat, b: nat): nat {
    if a < b then a else b
  }

  /** As far as the list goes, its first `m` entries are the newest `m` pending rows of all four tables if and
      only if those hold no more of any kind than its query fetches; for `m` up to five that is, if and only if
      at most three of them are privacy requests. */
  lemma ListStartsWithNewest(t: Rows, f: Rows, global: seq<Item>, items: seq<Item>, m: nat)
    requires FetchedFrom(f, t) && GlobalOrder(t, global) && Listed(f, items) && m <= 10
    ensures Cut(items, m) == Cut(global, m) <==> WithinLimits(Cut(global, m))
    ensures m <= 5 ==> (Cut(items, m) == Cut(global, m) <==> |OfKind(Cut(global, m), Privacy)| <= 3)
  {
    hide FetchedFrom, GlobalOrder, Merged, OfKind, WithinLimits;
    var sorted :| Arranges(f, sorted) && items == Cut(sorted, MAX_ITEMS);
    QueriesSelect(t, f, global);
    TopIsGlobal(Items(AllPending(t)), Items(f), global, sorted, m);
    CutTwice(sorted, MAX_ITEMS, m);
    if m <= 5 { FewWithinLimits(Cut(global, m)); }
  }

  lemma PrivacyPending(t: Rows)
    ensures |Items(AllPending(t)).privacy| == |PendingRows(Privacy, t.privacy)|
  {}

  lemma CutAtMost(s: seq<Item>, m: nat)
    ensures |Cut(s, m)| <= m
  {}

  /** So the first three are always the global newest three, and the first five are the global newest
      five whenever at most three privacy requests are open. */
  lemma TopThreeAndFive(t: Rows, f: Rows, global: seq<Item>, items: seq<Item>)
    requires FetchedFrom(f, t) && GlobalOrder(t, global) && Listed(f, items)
    ensures Cut(items, 3) == Cut(global, 3)
    ensures |PendingRows(Privacy, t.privacy)| <= 3 ==> Cut(items, 5) == Cut(global, 5)
  {
    PrivacyPending(t);
    CutAtMost(global, 3);
    hide *;
    OfKindAtMost(Cut(global, 3), Privacy);
    ListStartsWithNewest(t, f, global, items, 3);
    QueriesSelect(t, f, global);
    FewPrivacy(Items(AllPending(t)), Items(f), global, 5);
    ListStartsWithNewest(t, f, global, items, 5);
  }

  /* ---------- what the entries are ---------- */

  /** `item` shows a row of one of the tables, which awaits somebody's attention. */
  ghost predicate Shows(t: Rows, item: Item) {
    || (exists row :: row in t.contacts && row.status in {"new", "pending"}
          && item == Item(Contact, "contact-" + row.id, row.createdAt, row.status == "new"))
    || (exists row :: row in t.registrations && row.status == "pending"
          && item == Item(Registration, "reg-" + row.id, row.createdAt, true))
    || (exists row :: row in t.donations && row.status in {"pending", "pending_verification"}
          && item == Item(Donation, "don-" + row.id, row.createdAt, true))
    || (exists row :: row in t.privacy && row.status == "open"
          && item == Item(Privacy, "privacy-" + row.id, row.createdAt, row.verification == "unverified"))
  }

  lemma QueryRow(kind: Kind, table: seq<Row>, rows: seq<Row>, i: nat)
    requires QueryResult(kind, table, rows) && i < |rows|
    ensures rows[i] in table && Pending(kind, rows[i])
  {
    hide Pending;
    var ordered: seq<Row> :| multiset(ordered) == multiset(PendingRows(kind, table)) && NewestFirst(ordered)
      && rows == Cut(ordered, Limit(kind));
    assert rows[i] == ordered[i] && ordered[i] in multiset(ordered);
    PendingRow(kind, table, rows[i]);
  }

  lemma {:induction false} PendingRow(kind: Kind, table: seq<Row>, row: Row)
    ensures multiset(PendingRows(kind, table))[row] == if Pending(kind, row) then multiset(table)[row] else 0
  {
    hide Pending;
    if table != [] {
      PendingRow(kind, table[1..], row);
      assert table == [table[0]] + table[1..];
    }
  }

  /** Which rows are pending, and that none is left out or doubled. */
  lemma PendingRowsExact(t: Rows, row: Row)
    ensures var p := AllPending(t);
      && multiset(p.contacts)[row] == (if row.status in {"new", "pending"} then multiset(t.contacts)[row] else 0)
      && multiset(p.registrations)[row] == (if row.status == "pending" then multiset(t.registrations)[row] else 0)
      && multiset(p.donations)[row] ==
           (if row.status in {"pending", "pending_verification"} then multiset(t.donations)[row] else 0)
      && multiset(p.privacy)[row] == (if row.status == "open" then multiset(t.privacy)[row] else 0)
  {
    hide PendingRows;
    PendingRow(Contact, t.contacts, row);
    PendingRow(Registration, t.registrations, row);
    PendingRow(Donation, t.donations, row);
    PendingRow(Privacy, t.privacy, row);
  }

  lemma FetchedItem(kind: Kind, table: seq<Row>, rows: seq<Row>, item: Item) returns (row: Row)
    requires QueryResult(kind, table, rows) && item in ItemsOf(kind, rows)
    ensures row in table && Pending(kind, row) && item == ItemOf(kind, row)
  {
    hide Pending, ItemOf, QueryResult;
    var items := ItemsOf(kind, rows);
    var i :| 0 <= i < |items| && items[i] == item;
    QueryRow(kind, table, rows, i);
    row := rows[i];
  }

  /** Every entry of the list shows such a row. */
  lemma EntriesShowRows(t: Rows, f: Rows, items: seq<Item>, i: nat)
    requires FetchedFrom(f, t) && Listed(f, items) && i < |items|
    ensures Shows(t, items[i])
  {
    hide QueryResult, ItemsOf, Pending, ItemOf;
    var sorted :| Arranges(f, sorted) && items == Cut(sorted, MAX_ITEMS);
    var item := items[i];
    assert item == sorted[i] && item in multiset(sorted);
    var l := Items(f);
    if item in l.contacts {
      var row := FetchedItem(Contact, t.contacts, f.contacts, item);
      ShownRow(t, Contact, row);
    } else if item in l.registrations {
      var row := FetchedItem(Registration, t.registrations, f.registrations, item);
      ShownRow(t, Registration, row);
    } else if item in l.donations {
      var row := FetchedItem(Donation, t.donations, f.donations, item);
      ShownRow(t, Donation, row);
    } else {
      var row := FetchedItem(Privacy, t.privacy, f.privacy, item);
      ShownRow(t, Privacy, row);
    }
  }

  lemma ShownRow(t: Rows, kind: Kind, row: Row)
    requires row in (match kind case Contact => t.contacts case Registration => t.registrations
                     case Donation => t.donations case Privacy => t.privacy)
    requires Pending(kind, row)
    ensures Shows(t, ItemOf(kind, row))
  {}

  predicate LaterRow(x: Row, y: Row) {
    x.createdAt > y.createdAt
  }

  /** Every query has a result, whatever the table holds, rows of equal time included. */
  lemma QueryAnswers(kind: Kind, table: seq<Row>) returns (rows: seq<Row>)
    ensures QueryResult(kind, table, rows)
  {
    var pending := PendingRows(kind, table);
    var ordered := InsertionSorted(pending, LaterRow);
    SortingPermutes(pending, LaterRow);
    LaterSorted(pending);
    rows := Cut(ordered, Limit(kind));
  }

  lemma {:induction false} LaterSorted(rows: seq<Row>)
    ensures NewestFirst(InsertionSorted(rows, LaterRow))
  {
    if rows != [] {
      LaterSorted(rows[..|rows| - 1]);
      LaterInserted(InsertionSorted(rows[..|rows| - 1], LaterRow), rows[|rows| - 1]);
    }
  }

  lemma {:induction false} LaterInserted(rows: seq<Row>, x: Row)
    requires NewestFirst(rows)
    ensures NewestFirst(Insert(rows, x, LaterRow))
  {
    if rows != [] && LaterRow(x, rows[|rows| - 1]) {
      var init := rows[..|rows| - 1];
      LaterInserted(init, x);
      InsertPermutes(init, x, LaterRow);
      var all := Insert(init, x, LaterRow);
      forall i | 0 <= i < |all| ensures all[i].createdAt >= rows[|rows| - 1].createdAt {
        assert all[i] in multiset(all);
        if all[i] != x {
          assert all[i] in init;
          var j :| 0 <= j < |init| && init[j] == all[i];
        }
      }
    }
  }
}
