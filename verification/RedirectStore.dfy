/** The store of redirect rules (syte/database.py): one table, a priority for every row, and a
    listing in order of priority. */
module RedirectStore {
  import opened RedirectEngine

  type ProjectId = nat
  type RuleId = nat

  datatype Row = Row(id: RuleId, project: ProjectId, priority: int, created: int, rule: Rule)

  type Table = seq<Row>

  // ----- listing

  /** ORDER BY priority ASC, created_at DESC. */
  predicate Precedes(a: Row, b: Row) {
    a.priority < b.priority || (a.priority == b.priority && a.created > b.created)
  }

  function Insert(r: Row, sorted: seq<Row>): seq<Row> {
    if sorted == [] || Precedes(r, sorted[0]) then [r] + sorted else [sorted[0]] + Insert(r, sorted[1..])
  }

  function Sort(rows: Table): seq<Row> {
    if rows == [] then [] else Insert(rows[|rows| - 1], Sort(rows[..|rows| - 1]))
  }

  function Select(rows: Table, p: ProjectId): Table {
    if rows == [] then []
    else Select(rows[..|rows| - 1], p) + if rows[|rows| - 1].project == p then [rows[|rows| - 1]] else []
  }

  function Listing(rows: Table, p: ProjectId): seq<Row> {
    Sort(Select(rows, p))
  }

  function Ids(rows: seq<Row>): (r: seq<RuleId>)
    ensures |r| == |rows|
  {
    seq(|rows|, i requires 0 <= i < |rows| => rows[i].id)
  }

  ghost predicate Ascending(rows: seq<Row>) {
    forall i, j :: 0 <= i < j < |rows| ==> rows[i].priority < rows[j].priority
  }

  /** Ids are unique, and priorities are unique within a project. */
  ghost predicate Good(rows: Table) {
    && (forall i, j :: 0 <= i < j < |rows| ==> rows[i].id != rows[j].id)
    && (forall i, j :: 0 <= i < j < |rows| && rows[i].project == rows[j].project ==>
      rows[i].priority != rows[j].priority)
  }

  ghost predicate Distinct(rows: seq<Row>) {
    forall i, j :: 0 <= i < j < |rows| ==> rows[i].priority != rows[j].priority
  }

  lemma {:induction false} SelectRows(rows: Table, p: ProjectId)
    ensures forall r :: r in Select(rows, p) <==> r in rows && r.project == p
  {
    if rows != [] {
      SelectRows(rows[..|rows| - 1], p);
      assert rows == rows[..|rows| - 1] + [rows[|rows| - 1]];
    }
  }

  lemma {:induction false} SelectDistinct(rows: Table, p: ProjectId)
    requires Good(rows)
    ensures Distinct(Select(rows, p))
  {
    if rows != [] {
      var front, last := rows[..|rows| - 1], rows[|rows| - 1];
      SelectDistinct(front, p);
      SelectRows(front, p);
      var s := Select(front, p);
      forall i | 0 <= i < |s| && last.project == p
        ensures s[i].priority != last.priority
      {
        assert s[i] in s;
        var k :| 0 <= k < |front| && front[k] == s[i];
        assert rows[k] == s[i];
      }
    }
  }

  /** The same rows, in whatever order. */
  ghost predicate SameRows(a: seq<Row>, b: seq<Row>) {
    forall r :: r in a <==> r in b
  }

  lemma {:induction false} InsertRows(r: Row, sorted: seq<Row>)
    ensures SameRows(Insert(r, sorted), sorted + [r]) && |Insert(r, sorted)| == |sorted| + 1
  {
    if sorted != [] && !Precedes(r, sorted[0]) {
      InsertRows(r, sorted[1..]);
      assert sorted == [sorted[0]] + sorted[1..];
    }
  }

  lemma {:induction false} InsertAscending(r: Row, sorted: seq<Row>)
    requires Ascending(sorted) && forall x :: x in sorted ==> x.priority != r.priority
    ensures Ascending(Insert(r, sorted))
  {
    if sorted != [] && !Precedes(r, sorted[0]) {
      assert forall x :: x in sorted[1..] ==> x in sorted;
      InsertAscending(r, sorted[1..]);
      InsertRows(r, sorted[1..]);
      var rest := Insert(r, sorted[1..]);
      assert sorted[0] in sorted;
      forall k | 0 <= k < |rest|
        ensures sorted[0].priority < rest[k].priority
      {
        assert rest[k] in sorted[1..] + [r];
      }
    }
  }

  /** A listing has exactly the rows it was made from, in strictly ascending priority when the
      priorities are distinct. */
  lemma {:induction false} SortAscending(rows: Table)
    requires Distinct(rows)
    ensures Ascending(Sort(rows)) && SameRows(Sort(rows), rows) && |Sort(rows)| == |rows|
  {
    if rows != [] {
      var front, last := rows[..|rows| - 1], rows[|rows| - 1];
      assert rows == front + [last];
      SortAscending(front);
      forall x | x in Sort(front)
        ensures x.priority != last.priority
      {
        assert x in front;
      }
      InsertAscending(last, Sort(front));
      InsertRows(last, Sort(front));
    }
  }

  /** There is only one such order. */
  lemma {:induction false} AscendingUnique(a: seq<Row>, b: seq<Row>)
    requires Ascending(a) && Ascending(b) && SameRows(a, b)
    ensures a == b
  {
    if a == [] {
      if b != [] {
        SomeRow(b);
      }
    } else {
      assert a[0] in b;
      assert b[0] in b && b[0] in a;
      SameHead(a, b);
      assert a == [a[0]] + a[1..] && b == [b[0]] + b[1..];
      forall r
        ensures r in a[1..] <==> r in b[1..]
      {
        assert r in a <==> r in b;
        NotInTail(a);
        NotInTail(b);
      }
      AscendingUnique(a[1..], b[1..]);
    }
  }

  lemma SomeRow(b: seq<Row>)
    requires b != []
    ensures exists r :: r in b
  {
    assert b[0] in b;
  }

  lemma NotInTail(a: seq<Row>)
    requires Ascending(a) && a != []
    ensures a[0] !in a[1..]
  {
  }

  lemma SameHead(a: seq<Row>, b: seq<Row>)
    requires a != [] && b != [] && Ascending(a) && Ascending(b) && a[0] in b && b[0] in a
    ensures a[0] == b[0]
  {
    var i :| 0 <= i < |b| && b[i] == a[0];
    var j :| 0 <= j < |a| && a[j] == b[0];
  }

  /** In order of priority, and among equals the later one first. */
  ghost predicate Ordered(rows: seq<Row>) {
    forall i, j :: 0 <= i < j < |rows| ==>
      rows[i].priority < rows[j].priority
      || (rows[i].priority == rows[j].priority && rows[i].created >= rows[j].created)
  }

  lemma {:induction false} InsertOrdered(r: Row, sorted: seq<Row>)
    requires Ordered(sorted)
    ensures Ordered(Insert(r, sorted))
  {
    if sorted != [] && !Precedes(r, sorted[0]) {
      InsertOrdered(r, sorted[1..]);
      InsertRows(r, sorted[1..]);
      var rest := Insert(r, sorted[1..]);
      forall k | 0 <= k < |rest|
        ensures sorted[0].priority < rest[k].priority
                || (sorted[0].priority == rest[k].priority && sorted[0].created >= rest[k].created)
      {
        assert rest[k] in sorted[1..] + [r];
        if rest[k] != r {
          var i :| 0 <= i < |sorted[1..]| && sorted[1..][i] == rest[k];
          assert sorted[i + 1] == rest[k];
        }
      }
    }
  }

  /** Every listing is in that order, and has as many rows as the project, also when priorities are
      equal. */
  lemma {:induction false} SortOrdered(rows: Table)
    ensures Ordered(Sort(rows)) && |Sort(rows)| == |rows| && SameRows(Sort(rows), rows)
  {
    if rows != [] {
      SortOrdered(rows[..|rows| - 1]);
      InsertOrdered(rows[|rows| - 1], Sort(rows[..|rows| - 1]));
      InsertRows(rows[|rows| - 1], Sort(rows[..|rows| - 1]));
      assert rows == rows[..|rows| - 1] + [rows[|rows| - 1]];
    }
  }

  lemma ListingAscending(rows: Table, p: ProjectId)
    requires Good(rows)
    ensures Ascending(Listing(rows, p)) && SameRows(Listing(rows, p), Select(rows, p))
    ensures |Listing(rows, p)| == |Select(rows, p)|
  {
    SelectDistinct(rows, p);
    SortAscending(Select(rows, p));
  }

  /** Whatever has the project's rows in ascending priority is the listing. */
  lemma ListingIs(rows: Table, p: ProjectId, wanted: seq<Row>)
    requires Good(rows) && Ascending(wanted)
    requires forall r :: r in wanted <==> r in rows && r.project == p
    ensures Listing(rows, p) == wanted
  {
    ListingAscending(rows, p);
    SelectRows(rows, p);
    AscendingUnique(Listing(rows, p), wanted);
  }

  // ----- operations

  /** COALESCE(MAX(priority), 0) over a project's rows. */
  function MaxPriority(rows: Table, p: ProjectId): int {
    if rows == [] then 0
    else
      var front, last := rows[..|rows| - 1], rows[|rows| - 1];
      if last.project != p then MaxPriority(front, p)
      else if Select(front, p) == [] || last.priority > MaxPriority(front, p) then last.priority
      else MaxPriority(front, p)
  }

  /** It is the highest priority of the project's rows, and one of them has it, if there are any. */
  lemma {:induction false} MaxIsHighest(rows: Table, p: ProjectId)
    ensures forall r :: r in Select(rows, p) ==> r.priority <= MaxPriority(rows, p)
    ensures if Select(rows, p) == [] then MaxPriority(rows, p) == 0
        else HasPriority(Select(rows, p), MaxPriority(rows, p))
  {
    if rows != [] {
      var front, last := rows[..|rows| - 1], rows[|rows| - 1];
      var before := Select(front, p);
      MaxIsHighest(front, p);
      if last.project == p {
        assert Select(rows, p) == before + [last] && Select(rows, p)[|before|] == last;
        if before != [] && last.priority <= MaxPriority(front, p) {
          var i :| 0 <= i < |before| && before[i].priority == MaxPriority(front, p);
          assert Select(rows, p)[i].priority == MaxPriority(rows, p);
        } else {
          assert Select(rows, p)[|before|].priority == MaxPriority(rows, p);
        }
      } else {
        assert Select(rows, p) == before;
      }
    }
  }

  ghost predicate HasPriority(rows: seq<Row>, n: int) {
    exists i :: 0 <= i < |rows| && rows[i].priority == n
  }

  function Created(rows: Table, p: ProjectId, id: RuleId, now: int, rule: Rule): Table {
    rows + [Row(id, p, MaxPriority(rows, p) + 1, now, rule)]
  }

  /** UPDATE ... SET priority = n WHERE id = id AND project_id = p. */
  function SetPriority(rows: Table, p: ProjectId, id: RuleId, n: int): Table {
    seq(|rows|, i requires 0 <= i < |rows| =>
      if rows[i].project == p && rows[i].id == id then rows[i].(priority := n) else rows[i])
  }

  /** The requested ids get the priorities 1, 2, 3, ... in turn. */
  function Reordered(rows: Table, p: ProjectId, ids: seq<RuleId>): Table {
    if ids == [] then rows
    else SetPriority(Reordered(rows, p, ids[..|ids| - 1]), p, ids[|ids| - 1], |ids|)
  }

  predicate AskedFor(r: Row, p: ProjectId, ids: seq<RuleId>) {
    r.project == p && r.id in ids
  }

  function Switched(r: Row, p: ProjectId, ids: seq<RuleId>, on: bool): (r': Row)
    ensures r'.id == r.id && r'.project == r.project && r'.priority == r.priority
  {
    if AskedFor(r, p, ids) then r.(rule := r.rule.(active := on)) else r
  }

  /** UPDATE ... SET is_active = on WHERE project_id = p AND id IN ids. */
  function Activated(rows: Table, p: ProjectId, ids: seq<RuleId>, on: bool): Table {
    seq(|rows|, i requires 0 <= i < |rows| => Switched(rows[i], p, ids, on))
  }

  /** DELETE ... WHERE project_id = p AND id IN ids. */
  function Removed(rows: Table, p: ProjectId, ids: seq<RuleId>): Table {
    if rows == [] then []
    else
      var last := rows[|rows| - 1];
      Removed(rows[..|rows| - 1], p, ids) + if AskedFor(last, p, ids) then [] else [last]
  }

  /** The number of rows a bulk statement applies to. */
  function RowCount(rows: Table, p: ProjectId, ids: seq<RuleId>): nat {
    if rows == [] then 0
    else RowCount(rows[..|rows| - 1], p, ids) + if AskedFor(rows[|rows| - 1], p, ids) then 1 else 0
  }

  // ----- what they do to the listings

  /** A change that touches no row of a project leaves its listing alone. */
  lemma ListingUntouched(rows: Table, rows': Table, q: ProjectId)
    requires Good(rows) && Good(rows')
    requires forall r: Row :: r.project == q ==> (r in rows' <==> r in rows)
    ensures Listing(rows', q) == Listing(rows, q)
  {
    ListingAscending(rows, q);
    SelectRows(rows, q);
    ListingIs(rows', q, Listing(rows, q));
  }

  ghost predicate AllBelow(rows: Table, p: ProjectId, n: int) {
    forall r :: r in rows && r.project == p ==> r.priority < n
  }

  lemma NextIsHighest(rows: Table, p: ProjectId)
    ensures AllBelow(rows, p, MaxPriority(rows, p) + 1)
  {
    MaxIsHighest(rows, p);
    SelectRows(rows, p);
  }

  /** A new rule has priority 1 in a project without rules, and else the one after the highest. */
  lemma PriorityOfNew(rows: Table, p: ProjectId, id: RuleId, now: int, rule: Rule)
    ensures var rows' := Created(rows, p, id, now, rule);
      && |rows'| == |rows| + 1 && rows'[..|rows|] == rows
      && var added := rows'[|rows|];
         && added.id == id && added.project == p && added.created == now && added.rule == rule
         && AllBelow(rows, p, added.priority)
         && (if forall r :: r in rows ==> r.project != p then added.priority == 1
             else exists r :: r in rows && r.project == p && r.priority == added.priority - 1)
  {
    NextIsHighest(rows, p);
    MaxIsHighest(rows, p);
    SelectRows(rows, p);
    if Select(rows, p) != [] {
      assert Select(rows, p)[0] in Select(rows, p);
    }
  }

  lemma CreateKeepsGood(rows: Table, p: ProjectId, id: RuleId, now: int, rule: Rule)
    requires Good(rows) && forall r :: r in rows ==> r.id != id
    ensures Good(Created(rows, p, id, now, rule))
  {
    NextIsHighest(rows, p);
    assert forall i :: 0 <= i < |rows| ==> rows[i] in rows;
  }

  lemma AppendAscending(list: seq<Row>, last: Row)
    requires Ascending(list) && forall r :: r in list ==> r.priority < last.priority
    ensures Ascending(list + [last])
  {
    assert forall k :: 0 <= k < |list| ==> list[k] in list;
  }

  lemma AppendListing(rows: Table, rows': Table, p: ProjectId, added: Row)
    requires Good(rows) && Good(rows') && rows' == rows + [added] && added.project == p
    requires added.priority == MaxPriority(rows, p) + 1
    ensures Listing(rows', p) == Listing(rows, p) + [added]
  {
    var list := Listing(rows, p);
    NextIsHighest(rows, p);
    ListingAscending(rows, p);
    SelectRows(rows, p);
    AppendAscending(list, added);
    ListingIs(rows', p, list + [added]);
  }

  /** A new rule goes last ... */
  lemma CreateGoesLast(rows: Table, p: ProjectId, id: RuleId, now: int, rule: Rule)
    requires Good(rows) && Good(Created(rows, p, id, now, rule))
    ensures Listing(Created(rows, p, id, now, rule), p) == Listing(rows, p)
        + [Row(id, p, MaxPriority(rows, p) + 1, now, rule)]
  {
    AppendListing(rows, Created(rows, p, id, now, rule), p, Row(id, p, MaxPriority(rows, p) + 1, now, rule));
  }

  /** ... and no other project notices. */
  lemma CreateLeavesOthers(rows: Table, p: ProjectId, id: RuleId, now: int, rule: Rule, q: ProjectId)
    requires Good(rows) && Good(Created(rows, p, id, now, rule)) && q != p
    ensures Listing(Created(rows, p, id, now, rule), q) == Listing(rows, q)
  {
    ListingUntouched(rows, Created(rows, p, id, now, rule), q);
  }

  lemma {:induction false} RemovedRows(rows: Table, p: ProjectId, ids: seq<RuleId>)
    ensures forall r :: r in Removed(rows, p, ids) <==> r in rows && !AskedFor(r, p, ids)
  {
    if rows != [] {
      RemovedRows(rows[..|rows| - 1], p, ids);
      assert rows == rows[..|rows| - 1] + [rows[|rows| - 1]];
    }
  }

  lemma {:induction false} RemovedGood(rows: Table, p: ProjectId, ids: seq<RuleId>)
    requires Good(rows)
    ensures Good(Removed(rows, p, ids))
  {
    if rows != [] {
      var front, last := rows[..|rows| - 1], rows[|rows| - 1];
      RemovedGood(front, p, ids);
      RemovedRows(front, p, ids);
      var kept := Removed(front, p, ids);
      forall i | 0 <= i < |kept|
        ensures kept[i].id != last.id && (kept[i].project == last.project ==> kept[i].priority != last.priority)
      {
        assert kept[i] in front;
        var k :| 0 <= k < |front| && front[k] == kept[i];
        assert rows[k] == kept[i];
      }
    }
  }

  /** The rows of a list that survive a deletion, in the order they had. */
  function Survivors(list: seq<Row>, ids: seq<RuleId>): seq<Row> {
    if list == [] then [] else (if list[0].id in ids then [] else [list[0]]) + Survivors(list[1..], ids)
  }

  lemma {:induction false} SurvivorsAscending(list: seq<Row>, ids: seq<RuleId>)
    requires Ascending(list)
    ensures Ascending(Survivors(list, ids))
    ensures forall r :: r in Survivors(list, ids) <==> r in list && r.id !in ids
  {
    if list != [] {
      SurvivorsAscending(list[1..], ids);
      assert list == [list[0]] + list[1..];
      var rest := Survivors(list[1..], ids);
      forall k | 0 <= k < |rest|
        ensures list[0].priority < rest[k].priority
      {
        assert rest[k] in list[1..];
      }
    }
  }

  /** Deleting rules keeps the order of the others. */
  lemma DeleteKeepsOrder(rows: Table, p: ProjectId, ids: seq<RuleId>)
    requires Good(rows)
    ensures Good(Removed(rows, p, ids))
    ensures Listing(Removed(rows, p, ids), p) == Survivors(Listing(rows, p), ids)
    ensures forall q :: q != p ==> Listing(Removed(rows, p, ids), q) == Listing(rows, q)
  {
    RemovedRows(rows, p, ids);
    RemovedGood(rows, p, ids);
    ListingAscending(rows, p);
    SelectRows(rows, p);
    SurvivorsAscending(Listing(rows, p), ids);
    ListingIs(Removed(rows, p, ids), p, Survivors(Listing(rows, p), ids));
    forall q | q != p
      ensures Listing(Removed(rows, p, ids), q) == Listing(rows, q)
    {
      ListingUntouched(rows, Removed(rows, p, ids), q);
    }
  }

  // ----- reordering

  /** Each id's place in the request; the last one counts when an id is repeated. */
  function Place(ids: seq<RuleId>, id: RuleId): (k: nat)
    ensures k <= |ids| && (k > 0 <==> id in ids)
    ensures k > 0 ==> ids[k - 1] == id
    ensures forall j :: k <= j < |ids| ==> ids[j] != id
  {
    if ids == [] then 0
    else if ids[|ids| - 1] == id then |ids|
    else Place(ids[..|ids| - 1], id)
  }

  /** After a reorder a requested rule has its place as its priority; nothing else has changed. */
  function Placed(r: Row, p: ProjectId, ids: seq<RuleId>): Row {
    if AskedFor(r, p, ids) then r.(priority := Place(ids, r.id)) else r
  }

  lemma {:induction false} ReorderedRows(rows: Table, p: ProjectId, ids: seq<RuleId>)
    ensures |Reordered(rows, p, ids)| == |rows|
    ensures forall i :: 0 <= i < |rows| ==> Reordered(rows, p, ids)[i] == Placed(rows[i], p, ids)
  {
    if ids != [] {
      ReorderedRows(rows, p, ids[..|ids| - 1]);
      assert ids == ids[..|ids| - 1] + [ids[|ids| - 1]];
    }
  }

  predicate LeftOut(r: Row, p: ProjectId, ids: seq<RuleId>) {
    r.project == p && r.id !in ids
  }

  /** A reorder keeps the priorities of the project distinct exactly when no rule left out of the
      request already has one of the priorities that the request hands out. */
  lemma ReorderDistinctIff(rows: Table, p: ProjectId, ids: seq<RuleId>)
    requires Good(rows)
    ensures Good(Reordered(rows, p, ids)) <==>
      forall i, j :: 0 <= i < |rows| && 0 <= j < |rows| && LeftOut(rows[i], p, ids) && AskedFor(rows[j], p, ids) ==>
        rows[i].priority != Place(ids, rows[j].id)
  {
    var rows' := Reordered(rows, p, ids);
    ReorderedRows(rows, p, ids);
    if Good(rows') {
      forall i, j | 0 <= i < |rows| && 0 <= j < |rows| && LeftOut(rows[i], p, ids) && AskedFor(rows[j], p, ids)
        ensures rows[i].priority != Place(ids, rows[j].id)
      {
        assert i != j && rows'[i] == rows[i] && rows'[j].priority == Place(ids, rows[j].id);
      }
    }
  }

  /** The request names every rule of the project, once. */
  ghost predicate Permutes(rows: Table, p: ProjectId, ids: seq<RuleId>) {
    && (forall i, j :: 0 <= i < j < |ids| ==> ids[i] != ids[j])
    && (forall i :: 0 <= i < |rows| && rows[i].project == p ==> rows[i].id in ids)
    && (forall k :: 0 <= k < |ids| ==> HasRule(rows, p, ids[k]))
  }

  ghost predicate HasRule(rows: Table, p: ProjectId, id: RuleId) {
    exists i :: 0 <= i < |rows| && rows[i].project == p && rows[i].id == id
  }

  ghost function RuleAt(rows: Table, p: ProjectId, id: RuleId): (i: nat)
    requires HasRule(rows, p, id)
    ensures i < |rows| && rows[i].project == p && rows[i].id == id
  {
    var i :| 0 <= i < |rows| && rows[i].project == p && rows[i].id == id;
    i
  }

  ghost function Wanted(rows: Table, p: ProjectId, ids: seq<RuleId>): seq<Row>
    requires Permutes(rows, p, ids)
  {
    seq(|ids|, k requires 0 <= k < |ids| => Placed(rows[RuleAt(rows, p, ids[k])], p, ids))
  }

  lemma WantedAscends(rows: Table, p: ProjectId, ids: seq<RuleId>)
    requires Permutes(rows, p, ids)
    ensures Ids(Wanted(rows, p, ids)) == ids && Ascending(Wanted(rows, p, ids))
  {
    forall k | 0 <= k < |ids|
      ensures Wanted(rows, p, ids)[k].id == ids[k] && Wanted(rows, p, ids)[k].priority == k + 1
    {
      assert rows[RuleAt(rows, p, ids[k])].id == ids[k];
    }
  }

  lemma WantedIsThere(rows: Table, p: ProjectId, ids: seq<RuleId>, r: Row)
    requires Permutes(rows, p, ids) && r in Wanted(rows, p, ids)
    ensures r in Reordered(rows, p, ids) && r.project == p
  {
    ReorderedRows(rows, p, ids);
    var k :| 0 <= k < |ids| && Wanted(rows, p, ids)[k] == r;
    assert Reordered(rows, p, ids)[RuleAt(rows, p, ids[k])] == r;
  }

  lemma NothingElseThere(rows: Table, p: ProjectId, ids: seq<RuleId>, i: nat)
    requires Good(rows) && Permutes(rows, p, ids) && i < |rows| && rows[i].project == p
    ensures Placed(rows[i], p, ids) in Wanted(rows, p, ids)
  {
    var k := Place(ids, rows[i].id) - 1;
    assert RuleAt(rows, p, ids[k]) == i;
    assert Wanted(rows, p, ids)[k] == Placed(rows[i], p, ids);
  }

  lemma WantedRows(rows: Table, p: ProjectId, ids: seq<RuleId>, r: Row)
    requires Good(rows) && Permutes(rows, p, ids)
    ensures r in Wanted(rows, p, ids) <==> r in Reordered(rows, p, ids) && r.project == p
  {
    if r in Wanted(rows, p, ids) {
      WantedIsThere(rows, p, ids, r);
    }
    if r in Reordered(rows, p, ids) && r.project == p {
      ReorderedRows(rows, p, ids);
      var i :| 0 <= i < |rows| && Reordered(rows, p, ids)[i] == r;
      NothingElseThere(rows, p, ids, i);
    }
  }

  /** After a request that names every rule once, the listing is exactly the requested order. */
  lemma ReorderListsAsRequested(rows: Table, p: ProjectId, ids: seq<RuleId>)
    requires Good(rows) && Permutes(rows, p, ids)
    ensures Good(Reordered(rows, p, ids))
    ensures Ids(Listing(Reordered(rows, p, ids), p)) == ids
    ensures forall q :: q != p ==> Listing(Reordered(rows, p, ids), q) == Listing(rows, q)
  {
    var rows', wanted := Reordered(rows, p, ids), Wanted(rows, p, ids);
    ReorderDistinctIff(rows, p, ids);
    WantedAscends(rows, p, ids);
    forall r
      ensures r in wanted <==> r in rows' && r.project == p
    {
      WantedRows(rows, p, ids, r);
    }
    ListingIs(rows', p, wanted);
    forall q | q != p
      ensures Listing(rows', q) == Listing(rows, q)
    {
      OthersKept(rows, p, ids, q);
      ListingUntouched(rows, rows', q);
    }
  }

  lemma OthersKept(rows: Table, p: ProjectId, ids: seq<RuleId>, q: ProjectId)
    requires q != p
    ensures forall r: Row :: r.project == q ==> (r in Reordered(rows, p, ids) <==> r in rows)
  {
    var rows' := Reordered(rows, p, ids);
    ReorderedRows(rows, p, ids);
    forall r: Row | r.project == q
      ensures r in rows' <==> r in rows
    {
      if r in rows {
        var i :| 0 <= i < |rows| && rows[i] == r;
        assert rows'[i] == r;
      }
      if r in rows' {
        var i :| 0 <= i < |rows'| && rows'[i] == r;
        assert rows[i] == r;
      }
    }
  }

  ghost predicate CameFrom(rows: seq<Row>, p: ProjectId, ids: seq<RuleId>, on: bool, r': Row) {
    exists r :: r in rows && r' == Switched(r, p, ids, on)
  }

  lemma ActivatedRows(rows: Table, p: ProjectId, ids: seq<RuleId>, on: bool, r': Row)
    ensures r' in Activated(rows, p, ids, on) <==> CameFrom(rows, p, ids, on, r')
  {
    var rows' := Activated(rows, p, ids, on);
    if r' in rows' {
      var i :| 0 <= i < |rows'| && rows'[i] == r';
      assert rows[i] in rows;
    }
    if CameFrom(rows, p, ids, on, r') {
      var r :| r in rows && r' == Switched(r, p, ids, on);
      var i :| 0 <= i < |rows| && rows[i] == r;
      assert rows'[i] == r';
    }
  }

  lemma ActivatedGood(rows: Table, p: ProjectId, ids: seq<RuleId>, on: bool)
    ensures Good(rows) ==> Good(Activated(rows, p, ids, on))
    ensures Ascending(rows) ==> Ascending(Activated(rows, p, ids, on))
  {
  }

  /** The rows of a project, and nothing else, come from the rows of the project. */
  lemma SameOrigin(list: seq<Row>, rows: Table, p: ProjectId, ids: seq<RuleId>, on: bool, r': Row)
    requires forall r :: r in list <==> r in rows && r.project == p
    ensures CameFrom(list, p, ids, on, r') <==> CameFrom(rows, p, ids, on, r') && r'.project == p
  {
  }

  /** Enabling and disabling rules changes no row's place, and no other listing. */
  lemma ActivateKeepsOrder(rows: Table, p: ProjectId, ids: seq<RuleId>, on: bool)
    requires Good(rows)
    ensures Good(Activated(rows, p, ids, on))
    ensures Listing(Activated(rows, p, ids, on), p) == Activated(Listing(rows, p), p, ids, on)
    ensures Ids(Activated(Listing(rows, p), p, ids, on)) == Ids(Listing(rows, p))
    ensures forall q :: q != p ==> Listing(Activated(rows, p, ids, on), q) == Listing(rows, q)
  {
    var list, rows' := Listing(rows, p), Activated(rows, p, ids, on);
    ListingAscending(rows, p);
    SelectRows(rows, p);
    ActivatedGood(rows, p, ids, on);
    ActivatedGood(list, p, ids, on);
    forall r'
      ensures r' in Activated(list, p, ids, on) <==> r' in rows' && r'.project == p
    {
      ActivatedRows(list, p, ids, on, r');
      ActivatedRows(rows, p, ids, on, r');
      SameOrigin(list, rows, p, ids, on, r');
    }
    ListingIs(rows', p, Activated(list, p, ids, on));
    forall q | q != p
      ensures Listing(rows', q) == Listing(rows, q)
    {
      forall r: Row | r.project == q
        ensures r in rows' <==> r in rows
      {
        ActivatedRows(rows, p, ids, on, r);
        OtherOrigin(rows, p, ids, on, r);
      }
      ListingUntouched(rows, rows', q);
    }
  }

  lemma OtherOrigin(rows: Table, p: ProjectId, ids: seq<RuleId>, on: bool, r: Row)
    requires r.project != p
    ensures CameFrom(rows, p, ids, on, r) <==> r in rows
  {
    if r in rows {
      assert Switched(r, p, ids, on) == r;
    }
  }

  // ----- whole runs

  datatype Op =
    | Create(project: ProjectId, id: RuleId, now: int, rule: Rule)
    | Reorder(project: ProjectId, ids: seq<RuleId>)
    | Activate(project: ProjectId, ids: seq<RuleId>, on: bool)
    | Delete(project: ProjectId, ids: seq<RuleId>)

  /** New ids are new, and a reorder names every rule of its project. */
  ghost predicate Proper(rows: Table, op: Op) {
    match op
    case Create(_, id, _, _) => forall r :: r in rows ==> r.id != id
    case Reorder(p, ids) => Permutes(rows, p, ids)
    case _ => true
  }

  function Act(rows: Table, op: Op): Table {
    match op
    case Create(p, id, now, rule) => Created(rows, p, id, now, rule)
    case Reorder(p, ids) => Reordered(rows, p, ids)
    case Activate(p, ids, on) => Activated(rows, p, ids, on)
    case Delete(p, ids) => Removed(rows, p, ids)
  }

  ghost predicate ProperRun(ops: seq<Op>) {
    ops == [] || (ProperRun(ops[..|ops| - 1]) && Proper(TableAfter(ops[..|ops| - 1]), ops[|ops| - 1]))
  }

  function TableAfter(ops: seq<Op>): Table {
    if ops == [] then [] else Act(TableAfter(ops[..|ops| - 1]), ops[|ops| - 1])
  }

  /** From an empty store, over any run of creates, bulk changes, deletions and complete reorders,
      ids stay unique and priorities stay distinct within each project. */
  lemma {:induction false} RunKeepsGood(ops: seq<Op>)
    requires ProperRun(ops)
    ensures Good(TableAfter(ops))
  {
    if ops != [] {
      var rows, op := TableAfter(ops[..|ops| - 1]), ops[|ops| - 1];
      RunKeepsGood(ops[..|ops| - 1]);
      match op
      case Create(p, id, now, rule) => CreateKeepsGood(rows, p, id, now, rule);
      case Reorder(p, ids) => ReorderListsAsRequested(rows, p, ids);
      case Activate(p, ids, on) => ActivateKeepsOrder(rows, p, ids, on);
      case Delete(p, ids) => RemovedGood(rows, p, ids);
    }
  }

  // ----- the store

  lemma CreateLists(rows: Table, p: ProjectId, id: RuleId, now: int, rule: Rule)
    ensures Good(rows) && (forall r :: r in rows ==> r.id != id) ==>
      var rows' := Created(rows, p, id, now, rule);
      && Good(rows') && Listing(rows', p) == Listing(rows, p) + [rows'[|rows|]]
      && forall q :: q != p ==> Listing(rows', q) == Listing(rows, q)
  {
    if Good(rows) && forall r :: r in rows ==> r.id != id {
      CreateKeepsGood(rows, p, id, now, rule);
      CreateGoesLast(rows, p, id, now, rule);
      forall q | q != p
        ensures Listing(Created(rows, p, id, now, rule), q) == Listing(rows, q)
      {
        CreateLeavesOthers(rows, p, id, now, rule, q);
      }
    }
  }

  datatype BulkAction = Enable | Disable | Delete | Unknown

  lemma {:induction false} RemovedCount(rows: Table, p: ProjectId, ids: seq<RuleId>)
    ensures |Removed(rows, p, ids)| + RowCount(rows, p, ids) == |rows|
  {
    if rows != [] {
      RemovedCount(rows[..|rows| - 1], p, ids);
    }
  }

  /** An empty request applies to no row, so skipping the statement changes nothing. */
  lemma {:induction false} NothingAskedFor(rows: Table, p: ProjectId)
    ensures RowCount(rows, p, []) == 0 && Removed(rows, p, []) == rows
    ensures forall on :: Activated(rows, p, [], on) == rows
  {
    if rows != [] {
      NothingAskedFor(rows[..|rows| - 1], p);
    }
  }

  class Store {
    var rows: Table

    constructor ()
      ensures rows == []
    {
      rows := [];
    }

    /** create_project_redirect.  With a new id the rule is listed last, and no other listing
        changes. */
    method CreateRule(p: ProjectId, id: RuleId, now: int, rule: Rule)
      modifies this
      ensures rows == Created(old(rows), p, id, now, rule)
      ensures Good(old(rows)) && (forall r :: r in old(rows) ==> r.id != id) ==>
        && Good(rows)
        && Listing(rows, p) == Listing(old(rows), p) + [rows[|old(rows)|]]
        && rows[|old(rows)|].id == id && rows[|old(rows)|].rule == rule
        && forall q :: q != p ==> Listing(rows, q) == Listing(old(rows), q)
    {
      CreateLists(rows, p, id, now, rule);
      var highest := MaxPriority(rows, p);
      rows := rows + [Row(id, p, highest + 1, now, rule)];
    }

    /** reorder_project_redirects: one UPDATE for each requested id. */
    method ReorderRules(p: ProjectId, ids: seq<RuleId>)
      modifies this
      ensures rows == Reordered(old(rows), p, ids)
      ensures |rows| == |old(rows)| && forall i :: 0 <= i < |rows| ==> rows[i] == Placed(old(rows)[i], p, ids)
    {
      for k := 0 to |ids|
        invariant rows == Reordered(old(rows), p, ids[..k])
      {
        assert ids[..k + 1][..k] == ids[..k];
        rows := SetPriority(rows, p, ids[k], k + 1);
      }
      assert ids[..|ids|] == ids;
      ReorderedRows(old(rows), p, ids);
    }

    /** bulk_update_project_redirects; an action that is none of the three changes nothing. */
    method BulkUpdate(p: ProjectId, ids: seq<RuleId>, action: BulkAction) returns (count: nat)
      modifies this
      ensures rows == match action
                      case Enable => Activated(old(rows), p, ids, true)
                      case Disable => Activated(old(rows), p, ids, false)
                      case Delete => Removed(old(rows), p, ids)
                      case Unknown => old(rows)
      ensures count == if action.Unknown? then 0 else RowCount(old(rows), p, ids)
      ensures action.Delete? ==> |rows| + count == |old(rows)|
      ensures action.Enable? || action.Disable? ==>
        && |rows| == |old(rows)|
        && forall i :: 0 <= i < |rows| ==>
             var r := old(rows)[i];
             rows[i] == if r.project == p && r.id in ids then r.(rule := r.rule.(active := action.Enable?)) else r
      ensures action.Delete? ==> forall r :: r in rows <==> r in old(rows) && !(r.project == p && r.id in ids)
    {
      RemovedRows(rows, p, ids);
      RemovedCount(rows, p, ids);
      if ids == [] {
        NothingAskedFor(rows, p);
        return 0;
      }
      match action
      case Enable =>
        count := RowCount(rows, p, ids);
        rows := Activated(rows, p, ids, true);
      case Disable =>
        count := RowCount(rows, p, ids);
        rows := Activated(rows, p, ids, false);
      case Delete =>
        count := RowCount(rows, p, ids);
        rows := Removed(rows, p, ids);
      case Unknown =>
        count := 0;
    }

    /** The test endpoint: the winner is the first active matching rule of the listing. */
    method TestUrl(p: ProjectId, path: string, query: Query, pathOf: string -> string, queryOf: string -> Query)
      returns (outcome: Outcome)
      ensures outcome.Redirect? ==> Wins(Rules(Listing(rows, p)), path, outcome.winner)
      ensures outcome.NoMatch? ==> forall r :: r in Listing(rows, p) ==> !(r.rule.active && Matches(r.rule, path))
    {
      outcome := Simulate(Rules(Listing(rows, p)), path, query, pathOf, queryOf);
      assert forall k :: 0 <= k < |Listing(rows, p)| ==> Rules(Listing(rows, p))[k] == Listing(rows, p)[k].rule;
    }
  }

  function Rules(list: seq<Row>): (r: seq<Rule>)
    ensures |r| == |list|
  {
    seq(|list|, i requires 0 <= i < |list| => list[i].rule)
  }
}
