/** The fleet board: grouping broken checks into outages, and telling wedged workers from blocked ones. */
module Board {
  import opened Wrappers
  import opened Ordering

  /** A check as a worker's health document shows it. */
  datatype CheckBody = CheckBody(name: string, internalStatus: string, category: Option<string>, critical: bool)

  datatype QueueBody = QueueBody(queueLag: Option<real>, lastMessageAge: Option<real>)

  datatype Entry = Entry(name: string, empty: bool, checks: seq<CheckBody>, queues: seq<QueueBody>)

  const WEDGED: set<string> :=
    {"stalled", "not_consuming", "not_subscribed", "credit_exhausted", "poison_loop"}

  // ---- shared outages ----

  datatype Key = Key(check: string, category: string)

  /** One worker's report of one broken check. */
  datatype Report = Report(key: Key, worker: string, critical: bool, failing: bool)

  datatype Row = Row(key: Key, failing: bool, critical: bool, workers: seq<string>, count: nat, shared: bool)

  predicate Broken(c: CheckBody) {
    c.internalStatus == "failing" || c.internalStatus == "degraded"
  }

  /** The category, or "unknown" when there is none or it is empty. */
  function CategoryOrUnknown(c: CheckBody): string {
    if c.category.None? || c.category.value == "" then "unknown" else c.category.value
  }

  function ReportOf(worker: string, c: CheckBody): Report {
    Report(Key(c.name, CategoryOrUnknown(c)), worker, c.critical, c.internalStatus == "failing")
  }

  function EntryReports(worker: string, checks: seq<CheckBody>): seq<Report> {
    if checks == [] then []
    else EntryReports(worker, checks[..|checks| - 1])
         + if Broken(checks[|checks| - 1]) then [ReportOf(worker, checks[|checks| - 1])] else []
  }

  function Reports(entries: seq<Entry>): seq<Report> {
    if entries == [] then []
    else Reports(entries[..|entries| - 1]) + EntryReports(entries[|entries| - 1].name, entries[|entries| - 1].checks)
  }

  function WorkersOf(reports: seq<Report>, k: Key): seq<string> {
    if reports == [] then []
    else WorkersOf(reports[..|reports| - 1], k)
         + if reports[|reports| - 1].key == k then [reports[|reports| - 1].worker] else []
  }

  predicate Reported(reports: seq<Report>, k: Key) {
    exists r :: r in reports && r.key == k
  }

  predicate AnyCritical(reports: seq<Report>, k: Key) {
    exists r :: r in reports && r.key == k && r.critical
  }

  predicate AnyFailing(reports: seq<Report>, k: Key) {
    exists r :: r in reports && r.key == k && r.failing
  }

  /** The row a broken (check, category) pair deserves, whatever the order of the reports. */
  function RowFor(reports: seq<Report>, k: Key, minimum: int): Row {
    var workers := SortedSet(WorkersOf(reports, k));
    Row(k, AnyFailing(reports, k), AnyCritical(reports, k), workers, |workers|, |workers| >= minimum)
  }

  // Shared and critical first, then failing, then the widest, then by name.
  predicate Precedes(a: Row, b: Row) {
    if a.shared != b.shared then a.shared
    else if a.critical != b.critical then a.critical
    else if a.failing != b.failing then a.failing
    else if a.count != b.count then a.count > b.count
    else Less(a.key.check, b.key.check)
  }

  predicate Ordered(rows: seq<Row>) {
    forall i, j :: 0 <= i < j < |rows| ==> !Precedes(rows[j], rows[i])
  }

  lemma NotPrecedesTransitive(a: Row, b: Row, c: Row)
    requires !Precedes(b, a) && !Precedes(c, b)
    ensures !Precedes(c, a)
  {
    Trichotomy(a.key.check, b.key.check);
    Trichotomy(b.key.check, c.key.check);
    Trichotomy(a.key.check, c.key.check);
    if Less(c.key.check, a.key.check) && Less(a.key.check, b.key.check) {
      Transitive(c.key.check, a.key.check, b.key.check);
    }
    if Less(b.key.check, c.key.check) && Less(c.key.check, a.key.check) {
      Transitive(b.key.check, c.key.check, a.key.check);
    }
  }

  lemma PrecedesIsAsymmetric(a: Row, b: Row)
    requires Precedes(a, b)
    ensures !Precedes(b, a)
  {
    Trichotomy(a.key.check, b.key.check);
  }

  /** The pairs in the order in which they were first reported. */
  function KeysInOrder(reports: seq<Report>): seq<Key> {
    if reports == [] then []
    else
      var p, k := KeysInOrder(reports[..|reports| - 1]), reports[|reports| - 1].key;
      if k in p then p else p + [k]
  }

  predicate Earlier(keys: seq<Key>, a: Key, b: Key) {
    exists i, j :: 0 <= i < j < |keys| && keys[i] == a && keys[j] == b
  }

  /** Rows that tie stand in the order of their keys. */
  predicate Stable(rows: seq<Row>, keys: seq<Key>) {
    forall i, j :: 0 <= i < j < |rows| ==> Precedes(rows[i], rows[j]) || Earlier(keys, rows[i].key, rows[j].key)
  }

  lemma EarlierSnoc(keys: seq<Key>, k: Key, a: Key, b: Key)
    ensures Earlier(keys, a, b) ==> Earlier(keys + [k], a, b)
    ensures a in keys ==> Earlier(keys + [k], a, k)
  {
    var more := keys + [k];
    if i, j :| 0 <= i < j < |keys| && keys[i] == a && keys[j] == b {
      assert more[i] == a && more[j] == b;
    }
    if i :| 0 <= i < |keys| && keys[i] == a {
      assert more[i] == a && more[|keys|] == k;
    }
  }

  /** Stable insertion: behind every row that does not come later. */
  function Place(x: Row, rows: seq<Row>): seq<Row> {
    if rows == [] then [x]
    else if Precedes(x, rows[|rows| - 1]) then Place(x, rows[..|rows| - 1]) + [rows[|rows| - 1]]
    else rows + [x]
  }

  lemma {:induction false} PlaceHolds(x: Row, rows: seq<Row>)
    ensures forall y :: y in Place(x, rows) <==> y == x || y in rows
  {
    hide Precedes;
    if rows != [] {
      var p, last := rows[..|rows| - 1], rows[|rows| - 1];
      assert rows == p + [last];
      PlaceHolds(x, p);
    }
  }

  lemma {:induction false} PlaceKeepsOrder(x: Row, rows: seq<Row>)
    requires Ordered(rows)
    ensures Ordered(Place(x, rows))
  {
    hide Precedes;
    if rows != [] {
      var p, last := rows[..|rows| - 1], rows[|rows| - 1];
      assert rows == p + [last];
      if Precedes(x, last) {
        PlaceKeepsOrder(x, p);
        PlaceHolds(x, p);
        var q := Place(x, p);
        PrecedesIsAsymmetric(x, last);
        forall i | 0 <= i < |q|
          ensures !Precedes(last, q[i])
        {
          assert q[i] in q;
        }
        OrderedSnoc(q, last);
      } else {
        forall i | 0 <= i < |rows|
          ensures !Precedes(x, rows[i])
        {
          if i < |p| { NotPrecedesTransitive(rows[i], last, x); }
        }
        OrderedSnoc(rows, x);
      }
    }
  }

  lemma OrderedSnoc(rows: seq<Row>, x: Row)
    requires Ordered(rows) && forall i :: 0 <= i < |rows| ==> !Precedes(x, rows[i])
    ensures Ordered(rows + [x])
  {
    hide Precedes;
  }

  lemma {:induction false} PlaceKeepsStable(x: Row, rows: seq<Row>, keys: seq<Key>)
    requires Stable(rows, keys) && forall y :: y in rows ==> y.key in keys
    ensures Stable(Place(x, rows), keys + [x.key])
  {
    hide Precedes, Earlier;
    forall a: Key, b: Key
      ensures Earlier(keys, a, b) ==> Earlier(keys + [x.key], a, b)
      ensures a in keys ==> Earlier(keys + [x.key], a, x.key)
    {
      EarlierSnoc(keys, x.key, a, b);
    }
    if rows != [] {
      var p, last := rows[..|rows| - 1], rows[|rows| - 1];
      assert rows == p + [last];
      if Precedes(x, last) {
        PlaceKeepsStable(x, p, keys);
        PlaceHolds(x, p);
        var q := Place(x, p);
        forall i | 0 <= i < |q|
          ensures Precedes(q[i], last) || Earlier(keys + [x.key], q[i].key, last.key)
        {
          assert q[i] in q;
          if q[i] != x {
            var m :| 0 <= m < |p| && p[m] == q[i];
            assert rows[m] == q[i];
          }
        }
        StableSnoc(q, last, keys + [x.key]);
      } else {
        StableSnoc(rows, x, keys + [x.key]);
      }
    }
  }

  lemma StableSnoc(rows: seq<Row>, x: Row, keys: seq<Key>)
    requires Stable(rows, keys)
    requires forall i :: 0 <= i < |rows| ==> Precedes(rows[i], x) || Earlier(keys, rows[i].key, x.key)
    ensures Stable(rows + [x], keys)
  {
    hide Precedes, Earlier;
  }

  datatype Group = Group(workers: seq<string>, critical: bool, failing: bool)

  /** The accumulated groups say exactly what the reports seen so far say. */
  ghost predicate Grouped(groups: map<Key, Group>, order: seq<Key>, reports: seq<Report>) {
    && order == KeysInOrder(reports)
    && (forall k :: k in order <==> k in groups)
    && (forall i, j :: 0 <= i < j < |order| ==> order[i] != order[j])
    && (forall k :: k in groups <==> Reported(reports, k))
    && (forall k :: k in groups ==>
          groups[k] == GroupOf(reports, k))
  }

  function Joined(g: Group, r: Report): Group {
    Group(g.workers + [r.worker], g.critical || r.critical, g.failing || r.failing)
  }

  const NO_GROUP := Group([], false, false)

  lemma ReportSnoc(reports: seq<Report>, r: Report, k: Key)
    ensures WorkersOf(reports + [r], k) == if r.key == k then WorkersOf(reports, k) + [r.worker] else WorkersOf(reports, k)
    ensures Reported(reports + [r], k) <==> Reported(reports, k) || r.key == k
    ensures AnyCritical(reports + [r], k) <==> AnyCritical(reports, k) || (r.key == k && r.critical)
    ensures AnyFailing(reports + [r], k) <==> AnyFailing(reports, k) || (r.key == k && r.failing)
  {
    assert (reports + [r])[..|reports|] == reports;
    assert r in reports + [r];
    assert forall x :: x in reports ==> x in reports + [r];
  }

  lemma {:induction false} UnreportedIsEmpty(reports: seq<Report>, k: Key)
    requires !Reported(reports, k)
    ensures WorkersOf(reports, k) == [] && !AnyCritical(reports, k) && !AnyFailing(reports, k)
  {
    if reports != [] {
      var p, r := reports[..|reports| - 1], reports[|reports| - 1];
      assert reports == p + [r];
      ReportSnoc(p, r, k);
      UnreportedIsEmpty(p, k);
    }
  }

  function GroupOf(reports: seq<Report>, k: Key): Group {
    Group(WorkersOf(reports, k), AnyCritical(reports, k), AnyFailing(reports, k))
  }

  lemma GroupSnoc(reports: seq<Report>, r: Report, k: Key)
    ensures GroupOf(reports + [r], k) ==
            if r.key == k then Joined(if Reported(reports, k) then GroupOf(reports, k) else NO_GROUP, r) else GroupOf(reports, k)
    ensures Reported(reports + [r], k) <==> Reported(reports, k) || r.key == k
  {
    ReportSnoc(reports, r, k);
    if !Reported(reports, k) {
      UnreportedIsEmpty(reports, k);
    }
  }

  lemma GroupedOneMore(groups: map<Key, Group>, order: seq<Key>, reports: seq<Report>, r: Report)
    requires Grouped(groups, order, reports)
    ensures Grouped(groups[r.key := Joined(if r.key in groups then groups[r.key] else NO_GROUP, r)],
                    if r.key in groups then order else order + [r.key], reports + [r])
  {
    assert (reports + [r])[..|reports|] == reports;
    hide GroupOf, Reported, Joined;
    forall k
      ensures GroupOf(reports + [r], k) ==
              if r.key == k then Joined(if Reported(reports, k) then GroupOf(reports, k) else NO_GROUP, r) else GroupOf(reports, k)
      ensures Reported(reports + [r], k) <==> Reported(reports, k) || r.key == k
    {
      GroupSnoc(reports, r, k);
    }
  }

  /** What the board shows: one row per broken pair, in order. */
  ghost predicate ExactRows(rows: seq<Row>, reports: seq<Report>, minimum: int) {
    && (forall i, j :: 0 <= i < j < |rows| ==> rows[i].key != rows[j].key)
    && (forall i :: 0 <= i < |rows| ==> Reported(reports, rows[i].key) && rows[i] == RowFor(reports, rows[i].key, minimum))
    && (forall k :: Reported(reports, k) ==> RowFor(reports, k, minimum) in rows)
    && Ordered(rows) && Stable(rows, KeysInOrder(reports))
  }

  method SharedOutages(entries: seq<Entry>, minimum: int) returns (rows: seq<Row>)
    ensures ExactRows(rows, Reports(entries), minimum)
  {
    var groups: map<Key, Group>, order: seq<Key> := map[], [];
    for i := 0 to |entries|
      invariant Grouped(groups, order, Reports(entries[..i]))
    {
      hide Grouped;
      groups, order := AddEntry(groups, order, entries[i].name, entries[i].checks, Reports(entries[..i]));
      assert entries[..i + 1][..i] == entries[..i];
    }
    assert entries[..|entries|] == entries;
    rows := RowsInOrder(groups, order, Reports(entries), minimum);
  }

  method AddEntry(groups: map<Key, Group>, order: seq<Key>, worker: string, checks: seq<CheckBody>, ghost reports: seq<Report>)
    returns (groups': map<Key, Group>, order': seq<Key>)
    requires Grouped(groups, order, reports)
    ensures Grouped(groups', order', reports + EntryReports(worker, checks))
  {
    groups', order' := groups, order;
    assert reports + EntryReports(worker, checks[..0]) == reports;
    hide Grouped, Broken, ReportOf;
    for j := 0 to |checks|
      invariant Grouped(groups', order', reports + EntryReports(worker, checks[..j]))
    {
      EntryReportsSnoc(reports, worker, checks, j);
      if Broken(checks[j]) {
        groups', order' := AddReport(groups', order', ReportOf(worker, checks[j]), reports + EntryReports(worker, checks[..j]));
      }
    }
    assert checks[..|checks|] == checks;
  }

  lemma EntryReportsSnoc(reports: seq<Report>, worker: string, checks: seq<CheckBody>, j: nat)
    requires j < |checks|
    ensures reports + EntryReports(worker, checks[..j + 1]) ==
            if Broken(checks[j]) then reports + EntryReports(worker, checks[..j]) + [ReportOf(worker, checks[j])]
            else reports + EntryReports(worker, checks[..j])
  {
    assert checks[..j + 1][..j] == checks[..j];
  }

  method AddReport(groups: map<Key, Group>, order: seq<Key>, r: Report, ghost reports: seq<Report>)
    returns (groups': map<Key, Group>, order': seq<Key>)
    requires Grouped(groups, order, reports)
    ensures Grouped(groups', order', reports + [r])
  {
    GroupedOneMore(groups, order, reports, r);
    hide Grouped;
    groups', order' := groups, order;
    if r.key in groups {
      groups' := groups[r.key := Joined(groups[r.key], r)];
    } else {
      order' := order + [r.key];
      groups' := groups[r.key := Joined(NO_GROUP, r)];
    }
  }

  method RowsInOrder(groups: map<Key, Group>, order: seq<Key>, ghost reports: seq<Report>, minimum: int) returns (rows: seq<Row>)
    requires Grouped(groups, order, reports)
    ensures ExactRows(rows, reports, minimum)
  {
    hide RowsOf, Place, Grouped, ExactRows, SortedSet;
    rows := [];
    NoRows(reports, minimum);
    assert order[..0] == [];
    for i := 0 to |order|
      invariant RowsOf(rows, reports, order[..i], minimum)
    {
      OneRowMore(rows, groups, order, reports, i, minimum);
      var g := groups[order[i]];
      var workers := SortedSet(g.workers);
      rows := Place(Row(order[i], g.failing, g.critical, workers, |workers|, |workers| >= minimum), rows);
    }
    assert order[..|order|] == order;
    RowsAreExact(rows, groups, order, reports, minimum);
  }

  lemma OneRowMore(rows: seq<Row>, groups: map<Key, Group>, order: seq<Key>, reports: seq<Report>, i: nat, minimum: int)
    requires Grouped(groups, order, reports) && i < |order| && RowsOf(rows, reports, order[..i], minimum)
    ensures order[i] in groups
    ensures var g := groups[order[i]];
            var workers := SortedSet(g.workers);
            var row := Row(order[i], g.failing, g.critical, workers, |workers|, |workers| >= minimum);
            RowsOf(Place(row, rows), reports, order[..i + 1], minimum)
  {
    hide RowsOf, Place, Grouped, RowFor, SortedSet;
    GroupIsKnown(groups, order, reports, i, minimum);
    assert order[..i + 1] == order[..i] + [order[i]];
    RowsOneMore(rows, reports, order[..i], order[i], minimum);
  }

  lemma NoRows(reports: seq<Report>, minimum: int)
    ensures RowsOf([], reports, [], minimum)
  {
  }

  lemma GroupIsKnown(groups: map<Key, Group>, order: seq<Key>, reports: seq<Report>, i: nat, minimum: int)
    requires Grouped(groups, order, reports) && i < |order|
    ensures order[i] in groups && order[i] !in order[..i]
    ensures var g := groups[order[i]];
            var workers := SortedSet(g.workers);
            Row(order[i], g.failing, g.critical, workers, |workers|, |workers| >= minimum) == RowFor(reports, order[i], minimum)
  {
    hide WorkersOf, AnyCritical, AnyFailing, SortedSet;
  }

  lemma RowsAreExact(rows: seq<Row>, groups: map<Key, Group>, order: seq<Key>, reports: seq<Report>, minimum: int)
    requires Grouped(groups, order, reports) && RowsOf(rows, reports, order, minimum)
    ensures ExactRows(rows, reports, minimum)
  {
    hide RowFor, Reported, GroupOf, Ordered, Stable, KeysInOrder;
  }

  /** The rows of the given keys, ordered. */
  ghost predicate RowsOf(rows: seq<Row>, reports: seq<Report>, keys: seq<Key>, minimum: int) {
    && Ordered(rows) && Stable(rows, keys)
    && (forall x :: x in rows ==> x.key in keys && x == RowFor(reports, x.key, minimum))
    && (forall k :: k in keys ==> RowFor(reports, k, minimum) in rows)
    && (forall a, b :: 0 <= a < b < |rows| ==> rows[a].key != rows[b].key)
  }

  lemma RowsOneMore(rows: seq<Row>, reports: seq<Report>, keys: seq<Key>, k: Key, minimum: int)
    requires RowsOf(rows, reports, keys, minimum) && k !in keys
    ensures RowsOf(Place(RowFor(reports, k, minimum), rows), reports, keys + [k], minimum)
  {
    var row := RowFor(reports, k, minimum);
    KeyIsNew(rows, reports, keys, k, minimum);
    PlaceKeepsOrder(row, rows);
    PlaceKeepsStable(row, rows, keys);
    assert row.key == k && Ordered(rows) && forall a, b :: 0 <= a < b < |rows| ==> rows[a].key != rows[b].key;
    hide RowFor, Place, Precedes, Ordered, Stable, RowsOf;
    PlaceKeepsKeysApart(row, rows);
    PlaceHolds(row, rows);
    RowsAdded(Place(row, rows), rows, reports, keys, k, minimum);
  }

  lemma KeyIsNew(rows: seq<Row>, reports: seq<Report>, keys: seq<Key>, k: Key, minimum: int)
    requires RowsOf(rows, reports, keys, minimum) && k !in keys
    ensures forall a :: 0 <= a < |rows| ==> rows[a].key != k
  {
    hide RowFor, Ordered, Stable;
    forall a | 0 <= a < |rows| ensures rows[a].key != k {
      assert rows[a] in rows;
    }
  }

  lemma RowsAdded(more: seq<Row>, rows: seq<Row>, reports: seq<Report>, keys: seq<Key>, k: Key, minimum: int)
    requires RowsOf(rows, reports, keys, minimum) && Ordered(more) && Stable(more, keys + [k])
    requires forall x :: x in more <==> x == RowFor(reports, k, minimum) || x in rows
    requires forall a, b :: 0 <= a < b < |more| ==> more[a].key != more[b].key
    ensures RowsOf(more, reports, keys + [k], minimum)
  {
    assert RowFor(reports, k, minimum).key == k;
    hide RowFor, Ordered, Stable;
  }

  lemma {:induction false} PlaceKeepsKeysApart(x: Row, rows: seq<Row>)
    requires forall a, b :: 0 <= a < b < |rows| ==> rows[a].key != rows[b].key
    requires forall a :: 0 <= a < |rows| ==> rows[a].key != x.key
    ensures forall a, b :: 0 <= a < b < |Place(x, rows)| ==> Place(x, rows)[a].key != Place(x, rows)[b].key
  {
    if rows != [] {
      var p, last := rows[..|rows| - 1], rows[|rows| - 1];
      assert rows == p + [last];
      if Precedes(x, last) {
        PlaceKeepsKeysApart(x, p);
        PlaceHolds(x, p);
        var q := Place(x, p);
        forall a | 0 <= a < |q|
          ensures q[a].key != last.key
        {
          assert q[a] in q;
        }
      }
    }
  }

  // ---- order does not matter ----

  lemma {:induction false} WorkersOfMeaning(reports: seq<Report>, k: Key)
    ensures forall w :: w in WorkersOf(reports, k) <==> exists r :: r in reports && r.key == k && r.worker == w
  {
    if reports != [] {
      var p, r := reports[..|reports| - 1], reports[|reports| - 1];
      assert reports == p + [r];
      WorkersOfMeaning(p, k);
    }
  }

  lemma {:induction false} ReportsMeaning(entries: seq<Entry>)
    ensures forall r :: r in Reports(entries) <==> exists e :: e in entries && r in EntryReports(e.name, e.checks)
  {
    if entries != [] {
      var p, e := entries[..|entries| - 1], entries[|entries| - 1];
      assert entries == p + [e];
      ReportsMeaning(p);
    }
  }

  lemma {:induction false} EntryReportsMeaning(worker: string, checks: seq<CheckBody>)
    ensures forall r :: r in EntryReports(worker, checks) <==>
              exists c :: c in checks && Broken(c) && r == ReportOf(worker, c)
  {
    if checks != [] {
      var p, c := checks[..|checks| - 1], checks[|checks| - 1];
      assert checks == p + [c];
      EntryReportsMeaning(worker, p);
    }
  }

  /** A check that is FAILING or DEGRADED, under its category: "unknown" also stands for none or an empty one. */
  predicate Broke(c: CheckBody, k: Key) {
    c.name == k.check && c.internalStatus in {"failing", "degraded"} && Names(c.category, k.category)
  }

  predicate Names(category: Option<string>, name: string) {
    (category == Some(name) && name != "") || (category in {None, Some("")} && name == "unknown")
  }

  /** Worker w shows check k broken in its way. */
  predicate Shows(entries: seq<Entry>, w: string, k: Key) {
    exists e, c :: e in entries && e.name == w && c in e.checks && Broke(c, k)
  }

  predicate ShowsCritical(entries: seq<Entry>, k: Key) {
    exists e, c :: e in entries && c in e.checks && Broke(c, k) && c.critical
  }

  predicate ShowsFailing(entries: seq<Entry>, k: Key) {
    exists e, c :: e in entries && c in e.checks && Broke(c, k) && c.internalStatus == "failing"
  }

  lemma BrokeIff(c: CheckBody, worker: string, k: Key)
    ensures Broke(c, k) <==> Broken(c) && ReportOf(worker, c).key == k
    ensures ReportOf(worker, c).worker == worker && ReportOf(worker, c).critical == c.critical
    ensures ReportOf(worker, c).failing <==> c.internalStatus == "failing"
  {
  }

  /** The reports of a key are those of the checks that broke in its way. */
  lemma ReportsOfKey(entries: seq<Entry>, k: Key, r: Report)
    ensures r in Reports(entries) && r.key == k <==>
            exists e, c :: e in entries && c in e.checks && Broke(c, k) && r == ReportOf(e.name, c)
  {
    ReportsMeaning(entries);
    hide Reports, Broke, Broken, ReportOf, EntryReports;
    if r in Reports(entries) && r.key == k {
      var e :| e in entries && r in EntryReports(e.name, e.checks);
      EntryReportsMeaning(e.name, e.checks);
      var c :| c in e.checks && Broken(c) && r == ReportOf(e.name, c);
      BrokeIff(c, e.name, k);
    }
    if e, c :| e in entries && c in e.checks && Broke(c, k) && r == ReportOf(e.name, c) {
      BrokeIff(c, e.name, k);
      EntryReportsMeaning(e.name, e.checks);
    }
  }

  lemma ShownIffReported(entries: seq<Entry>, w: string, k: Key)
    ensures w in WorkersOf(Reports(entries), k) <==> Shows(entries, w, k)
  {
    var reports := Reports(entries);
    WorkersOfMeaning(reports, k);
    hide Reports, WorkersOf, Broke, ReportOf;
    if r :| r in reports && r.key == k && r.worker == w {
      ReportsOfKey(entries, k, r);
      var e, c :| e in entries && c in e.checks && Broke(c, k) && r == ReportOf(e.name, c);
      BrokeIff(c, e.name, k);
    }
    if e, c :| e in entries && e.name == w && c in e.checks && Broke(c, k) {
      BrokeIff(c, e.name, k);
      ReportsOfKey(entries, k, ReportOf(e.name, c));
    }
  }

  lemma FlagsIffReported(entries: seq<Entry>, k: Key)
    ensures AnyCritical(Reports(entries), k) <==> ShowsCritical(entries, k)
    ensures AnyFailing(Reports(entries), k) <==> ShowsFailing(entries, k)
  {
    var reports := Reports(entries);
    hide Reports, Broke, ReportOf;
    forall r | r in reports && r.key == k
      ensures r.critical ==> ShowsCritical(entries, k)
      ensures r.failing ==> ShowsFailing(entries, k)
    {
      ReportsOfKey(entries, k, r);
      var e, c :| e in entries && c in e.checks && Broke(c, k) && r == ReportOf(e.name, c);
      BrokeIff(c, e.name, k);
    }
    forall e, c | e in entries && c in e.checks && Broke(c, k)
      ensures c.critical ==> AnyCritical(reports, k)
      ensures c.internalStatus == "failing" ==> AnyFailing(reports, k)
    {
      BrokeIff(c, e.name, k);
      ReportsOfKey(entries, k, ReportOf(e.name, c));
    }
  }

  /**
   * A row lists, once each and in order, exactly the workers that show its check broken in its way, and says whether
   * they are enough to share it and whether any of them shows the check as critical or FAILING.
   */
  lemma RowMeaning(entries: seq<Entry>, k: Key, minimum: int)
    ensures var row := RowFor(Reports(entries), k, minimum);
            && row.key == k
            && Increasing(row.workers) && row.count == |row.workers| && (row.shared <==> row.count >= minimum)
            && (forall w :: w in row.workers <==> Shows(entries, w, k))
            && (row.critical <==> ShowsCritical(entries, k))
            && (row.failing <==> ShowsFailing(entries, k))
  {
    SortedSetMeaning(WorkersOf(Reports(entries), k));
    FlagsIffReported(entries, k);
    hide Reports, AnyCritical, AnyFailing, WorkersOf, ShowsCritical, ShowsFailing, Shows;
    forall w
      ensures w in WorkersOf(Reports(entries), k) <==> Shows(entries, w, k)
    {
      ShownIffReported(entries, w, k);
    }
  }

  /** The board has a row for a broken check exactly when some worker shows it, and then one only. */
  lemma RowIffShown(entries: seq<Entry>, rows: seq<Row>, minimum: int, k: Key)
    requires ExactRows(rows, Reports(entries), minimum)
    ensures (exists row :: row in rows && row.key == k) <==> exists w :: Shows(entries, w, k)
    ensures forall i, j :: 0 <= i < j < |rows| ==> rows[i].key != rows[j].key
  {
    var reports := Reports(entries);
    hide Reports, RowFor, Shows, Ordered, Stable;
    if r :| r in reports && r.key == k {
      WorkersOfMeaning(reports, k);
      ShownIffReported(entries, r.worker, k);
      assert RowFor(reports, k, minimum) in rows;
      RowKey(reports, k, minimum);
    }
    if w :| Shows(entries, w, k) {
      ShownIffReported(entries, w, k);
      WorkersOfMeaning(reports, k);
    }
  }

  lemma RowKey(reports: seq<Report>, k: Key, minimum: int)
    ensures RowFor(reports, k, minimum).key == k
  {
  }

  /** Row a stands before row b on the board: the first difference decides. */
  ghost predicate Outranks(a: Row, b: Row) {
    || (a.shared && !b.shared)
    || (a.shared == b.shared && a.critical && !b.critical)
    || (a.shared == b.shared && a.critical == b.critical && a.failing && !b.failing)
    || (a.shared == b.shared && a.critical == b.critical && a.failing == b.failing && a.count > b.count)
    || (a.shared == b.shared && a.critical == b.critical && a.failing == b.failing && a.count == b.count
        && BeforeInText(a.key.check, b.key.check))
  }

  /** Of any two rows on the board the first outranks the second, or they tie and its pair was reported earlier. */
  lemma RowOrder(rows: seq<Row>, reports: seq<Report>, minimum: int, i: nat, j: nat)
    requires ExactRows(rows, reports, minimum) && i < j < |rows|
    ensures !Outranks(rows[j], rows[i])
    ensures Outranks(rows[i], rows[j])
            || (rows[i].key.check == rows[j].key.check && Earlier(KeysInOrder(reports), rows[i].key, rows[j].key))
  {
    LessMeaning(rows[i].key.check, rows[j].key.check);
    LessMeaning(rows[j].key.check, rows[i].key.check);
    Trichotomy(rows[i].key.check, rows[j].key.check);
    assert !Precedes(rows[j], rows[i]);
    assert Precedes(rows[i], rows[j]) || Earlier(KeysInOrder(reports), rows[i].key, rows[j].key);
    hide BeforeInText, Less, RowFor, Reported, Earlier, KeysInOrder;
  }

  lemma SameReportsSameRow(a: seq<Report>, b: seq<Report>, k: Key, minimum: int)
    requires forall r :: r in a <==> r in b
    ensures Reported(a, k) <==> Reported(b, k)
    ensures RowFor(a, k, minimum) == RowFor(b, k, minimum)
  {
    WorkersOfMeaning(a, k);
    WorkersOfMeaning(b, k);
    SortedSetDependsOnElements(WorkersOf(a, k), WorkersOf(b, k));
  }

  /** Two boards over the same entries, in whatever order, show the same rows. */
  lemma RowsIgnoreEntryOrder(a: seq<Entry>, b: seq<Entry>, rowsA: seq<Row>, rowsB: seq<Row>, minimum: int)
    requires forall e :: e in a <==> e in b
    requires ExactRows(rowsA, Reports(a), minimum) && ExactRows(rowsB, Reports(b), minimum)
    ensures forall row :: row in rowsA <==> row in rowsB
  {
    ReportsMeaning(a);
    ReportsMeaning(b);
    forall row: Row
      ensures row in rowsA <==> row in rowsB
    {
      SameReportsSameRow(Reports(a), Reports(b), row.key, minimum);
    }
  }

  // ---- wedged workers ----

  datatype StaleRow = StaleRow(
    worker: string,
    categories: seq<string>,
    queueLag: real,
    silentFor: Option<real>,
    silentWithBacklog: bool,
    restartWouldHelp: bool,
    explained: bool)

  predicate ShowsWedge(c: CheckBody) {
    c.category.Some? && c.category.value in WEDGED
  }

  /** A failing check whose category names something other than the worker itself. */
  predicate Explains(c: CheckBody) {
    c.internalStatus == "failing" && c.category.Some? && c.category.value != "" && c.category.value !in WEDGED
  }

  predicate AnyWedge(checks: seq<CheckBody>) {
    exists c :: c in checks && ShowsWedge(c)
  }

  predicate AnyExplanation(checks: seq<CheckBody>) {
    exists c :: c in checks && Explains(c)
  }

  function WedgeNames(checks: seq<CheckBody>): seq<string> {
    if checks == [] then []
    else WedgeNames(checks[..|checks| - 1])
         + if ShowsWedge(checks[|checks| - 1]) then [checks[|checks| - 1].category.value] else []
  }

  predicate RestartWouldHelp(checks: seq<CheckBody>) {
    AnyWedge(checks) && !AnyExplanation(checks)
  }

  function LagOf(q: QueueBody): real {
    if q.queueLag.Some? then q.queueLag.value else 0.0
  }

  /** The largest backlog of any queue, at least zero. */
  ghost predicate IsBacklog(b: real, queues: seq<QueueBody>) {
    && b >= 0.0
    && (forall q :: q in queues && q.queueLag.Some? ==> q.queueLag.value <= b)
    && (b == 0.0 || exists q :: q in queues && q.queueLag == Some(b))
  }

  /** The longest silence of any queue that knows one. */
  ghost predicate IsSilence(s: Option<real>, queues: seq<QueueBody>) {
    && (forall q :: q in queues && q.lastMessageAge.Some? ==> s.Some? && q.lastMessageAge.value <= s.value)
    && (s.Some? ==> exists q :: q in queues && q.lastMessageAge == s)
  }

  /** The row a worker deserves: wedged, or silent on a backlog; nothing otherwise. */
  ghost predicate IsStaleRow(row: StaleRow, e: Entry, staleAfter: real) {
    && row.worker == e.name
    && row.categories == SortedSet(WedgeNames(e.checks))
    && IsBacklog(row.queueLag, e.queues)
    && IsSilence(row.silentFor, e.queues)
    && (row.silentWithBacklog <==> row.queueLag > 0.0 && row.silentFor.Some? && row.silentFor.value > staleAfter)
    && (row.explained <==> AnyExplanation(e.checks))
    && (row.restartWouldHelp <==> RestartWouldHelp(e.checks))
  }

  ghost predicate SilentOnBacklog(e: Entry, b: real, s: Option<real>, staleAfter: real) {
    IsBacklog(b, e.queues) && IsSilence(s, e.queues) && b > 0.0 && s.Some? && s.value > staleAfter
  }

  ghost predicate DeservesRow(e: Entry, staleAfter: real) {
    !e.empty && (AnyWedge(e.checks) || exists b, s :: SilentOnBacklog(e, b, s, staleAfter))
  }

  lemma ExtremesAreUnique(queues: seq<QueueBody>, b: real, b': real, s: Option<real>, s': Option<real>)
    requires IsBacklog(b, queues) && IsBacklog(b', queues) && IsSilence(s, queues) && IsSilence(s', queues)
    ensures b == b' && s == s'
  {
  }

  lemma {:induction false} WedgeNamesMeaning(checks: seq<CheckBody>)
    ensures forall w :: w in WedgeNames(checks) <==> exists c :: c in checks && ShowsWedge(c) && c.category.value == w
    ensures WedgeNames(checks) != [] <==> AnyWedge(checks)
  {
    if checks != [] {
      var p, c := checks[..|checks| - 1], checks[|checks| - 1];
      assert checks == p + [c];
      WedgeNamesMeaning(p);
    }
    if WedgeNames(checks) != [] {
      assert WedgeNames(checks)[0] in WedgeNames(checks);
    }
  }

  lemma SortedSetEmpty(xs: seq<string>)
    ensures SortedSet(xs) == [] <==> xs == []
  {
    SortedSetMeaning(xs);
    SameEmptiness(SortedSet(xs), xs);
  }

  method StaleRowOf(e: Entry, staleAfter: real) returns (row: Option<StaleRow>)
    ensures row.Some? ==> IsStaleRow(row.value, e, staleAfter)
    ensures row.Some? <==> DeservesRow(e, staleAfter)
  {
    if e.empty {
      return None;
    }
    var wedged := SortedSet(WedgeNames(e.checks));
    WedgeNamesMeaning(e.checks);
    SortedSetEmpty(WedgeNames(e.checks));
    var explained := Explained(e.checks);
    var backlog, silence := BacklogAndSilence(e.queues);
    var silentWithBacklog := backlog > 0.0 && silence.Some? && silence.value > staleAfter;
    assert silentWithBacklog ==> SilentOnBacklog(e, backlog, silence, staleAfter);
    forall b, s | SilentOnBacklog(e, b, s, staleAfter)
      ensures b == backlog && s == silence
    {
      ExtremesAreUnique(e.queues, b, backlog, s, silence);
    }
    if wedged == [] && !silentWithBacklog {
      return None;
    }
    return Some(StaleRow(e.name, wedged, backlog, silence, silentWithBacklog, wedged != [] && !explained, explained));
  }

  method Explained(checks: seq<CheckBody>) returns (explained: bool)
    ensures explained <==> AnyExplanation(checks)
  {
    explained := false;
    for i := 0 to |checks|
      invariant explained <==> exists j :: 0 <= j < i && Explains(checks[j])
    {
      if Explains(checks[i]) {
        explained := true;
      }
    }
  }

  method BacklogAndSilence(queues: seq<QueueBody>) returns (backlog: real, silence: Option<real>)
    ensures IsBacklog(backlog, queues) && IsSilence(silence, queues)
  {
    backlog, silence := 0.0, None;
    for i := 0 to |queues|
      invariant IsBacklog(backlog, queues[..i]) && IsSilence(silence, queues[..i])
    {
      assert queues[..i + 1] == queues[..i] + [queues[i]];
      var lag := LagOf(queues[i]);
      if lag > backlog {
        backlog := lag;
      }
      if queues[i].lastMessageAge.Some? {
        if silence.None? || queues[i].lastMessageAge.value > silence.value {
          silence := queues[i].lastMessageAge;
        }
      }
    }
    assert queues[..|queues|] == queues;
  }

  /** The entries that deserve a row, in their order. */
  ghost function Deserving(entries: seq<Entry>, staleAfter: real): seq<Entry> {
    if entries == [] then []
    else
      var last := entries[|entries| - 1];
      Deserving(entries[..|entries| - 1], staleAfter) + if DeservesRow(last, staleAfter) then [last] else []
  }

  /** One row for every entry that deserves one, in the order of the entries, and no other. */
  ghost predicate RowsMatch(rows: seq<StaleRow>, entries: seq<Entry>, staleAfter: real) {
    && |rows| == |entries|
    && forall i :: 0 <= i < |rows| ==> IsStaleRow(rows[i], entries[i], staleAfter)
  }

  method StaleWorkers(entries: seq<Entry>, staleAfter: real) returns (rows: seq<StaleRow>)
    ensures RowsMatch(rows, Deserving(entries, staleAfter), staleAfter)
  {
    rows := [];
    hide DeservesRow, IsStaleRow;
    for i := 0 to |entries|
      invariant RowsMatch(rows, Deserving(entries[..i], staleAfter), staleAfter)
    {
      assert entries[..i + 1][..i] == entries[..i];
      var row := StaleRowOf(entries[i], staleAfter);
      if row.Some? {
        rows := rows + [row.value];
      }
    }
    assert entries[..|entries|] == entries;
  }

  lemma {:induction false} DeservingMeaning(entries: seq<Entry>, staleAfter: real)
    ensures forall e :: e in Deserving(entries, staleAfter) <==> e in entries && DeservesRow(e, staleAfter)
  {
    hide DeservesRow;
    if entries != [] {
      var p, last := entries[..|entries| - 1], entries[|entries| - 1];
      assert entries == p + [last];
      DeservingMeaning(p, staleAfter);
    }
  }
}
