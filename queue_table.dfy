/**
  The `queue` table of the build queue as a value: its rows, the uniqueness
  constraints the database enforces, and the meaning of every SQL statement
  `BuildQueue` issues against it (the upsert, the three counts, the ordered
  listing, the `LIMIT 1` selection and the delete-or-increment that follows a
  build).
 */
module QueueTable {
  import opened Common

  /** What `queued_crates` and `process_next_crate` hand out: a row without its attempt count. */
  datatype QueuedCrate = QueuedCrate(id: nat, name: string, version: string, priority: i32, registry: Option<string>)

  /** One row of the `queue` table. */
  datatype Row = Row(id: nat, name: string, version: string, priority: i32, attempt: nat, registry: Option<string>)
  {
    /** The projection `SELECT id, name, version, priority, registry`: everything but the attempt count. */
    function Crate(): (c: QueuedCrate)
      ensures c.id == id && c.name == name && c.version == version && c.priority == priority && c.registry == registry
    {
      QueuedCrate(id, name, version, priority, registry)
    }

    /** Whether this row is the release (name, version). */
    predicate HasKey(crateName: string, crateVersion: string) {
      name == crateName && version == crateVersion
    }
  }

  /** A row is offered to the builder while it has been tried fewer than `maxAttempts` times. */
  predicate IsPending(row: Row, maxAttempts: nat) {
    row.attempt < maxAttempts
  }

  /** `ORDER BY priority ASC, attempt ASC, id ASC`: a is taken no later than b. */
  predicate KeyLe(a: Row, b: Row) {
    || a.priority < b.priority
    || (a.priority == b.priority && a.attempt < b.attempt)
    || (a.priority == b.priority && a.attempt == b.attempt && a.id <= b.id)
  }

  /**
    The selection order is a total order on rows, up to rows that share priority,
    attempt and id; among rows of equal priority and attempt the smaller id goes first.
   */
  lemma KeyLeOrders(a: Row, b: Row, c: Row)
    ensures KeyLe(a, a)
    ensures KeyLe(a, b) || KeyLe(b, a)
    ensures KeyLe(a, b) && KeyLe(b, c) ==> KeyLe(a, c)
    ensures KeyLe(a, b) && KeyLe(b, a) ==> a.priority == b.priority && a.attempt == b.attempt && a.id == b.id
    ensures a.priority == b.priority && a.attempt == b.attempt ==> (KeyLe(a, b) <==> a.id <= b.id)
  {
  }

  /**
    The table's constraints: `id` is a primary key drawn from a sequence whose next
    value is `nextId`, and (name, version) is unique.
   */
  ghost predicate WellFormed(rows: seq<Row>, nextId: nat) {
    && (forall i :: 0 <= i < |rows| ==> rows[i].id < nextId)
    && (forall i, j :: 0 <= i < j < |rows| ==> rows[i].id != rows[j].id)
    && (forall i, j :: 0 <= i < j < |rows| ==> !rows[j].HasKey(rows[i].name, rows[i].version))
  }

  /** The position of the row for (name, version), if there is one. */
  function Lookup(rows: seq<Row>, name: string, version: string): (r: Option<nat>)
    ensures r.Some? ==> r.value < |rows| && rows[r.value].HasKey(name, version)
    ensures r.None? ==> forall i :: 0 <= i < |rows| ==> !rows[i].HasKey(name, version)
  {
    if rows == [] then None
    else if rows[0].HasKey(name, version) then Some(0)
    else match Lookup(rows[1..], name, version)
      case None => None
      case Some(k) => Some(k + 1)
  }

  /** In a well-formed table the row for (name, version) is the only one with that key. */
  lemma LookupUnique(rows: seq<Row>, nextId: nat, k: nat)
    requires WellFormed(rows, nextId)
    requires k < |rows|
    ensures Lookup(rows, rows[k].name, rows[k].version) == Some(k)
  {
  }

  /** Overwriting row k with a row of the same id and key keeps the table's constraints. */
  lemma ReplaceRow(rows: seq<Row>, nextId: nat, k: nat, x: Row)
    requires WellFormed(rows, nextId)
    requires k < |rows| && x.id == rows[k].id && x.HasKey(rows[k].name, rows[k].version)
    ensures WellFormed(rows[k := x], nextId)
    ensures forall row: Row :: !row.HasKey(x.name, x.version) ==> (row in rows[k := x] <==> row in rows)
  {
    var r := rows[k := x];
    forall row: Row | !row.HasKey(x.name, x.version)
      ensures row in r <==> row in rows
    {
      if row in r {
        var j :| 0 <= j < |r| && r[j] == row;
        assert j != k && rows[j] == row;
      }
      if row in rows {
        var j :| 0 <= j < |rows| && rows[j] == row;
        assert j != k && r[j] == row;
      }
    }
  }

  /** Appending a row with a fresh id and a fresh key keeps the table's constraints. */
  lemma AppendRow(rows: seq<Row>, nextId: nat, x: Row)
    requires WellFormed(rows, nextId)
    requires x.id == nextId && Lookup(rows, x.name, x.version).None?
    ensures WellFormed(rows + [x], nextId + 1)
    ensures forall row: Row :: !row.HasKey(x.name, x.version) ==> (row in rows + [x] <==> row in rows)
  {
  }

  /**
    `INSERT INTO queue ... ON CONFLICT (name, version) DO UPDATE SET priority,
    registry, attempt = 0`. The new row's id is `nextId`; the id sequence
    advances on every call, also when the conflict branch is taken.
   */
  function Upsert(rows: seq<Row>, nextId: nat, name: string, version: string, priority: i32, registry: Option<string>): (r: seq<Row>)
    requires WellFormed(rows, nextId)
    ensures WellFormed(r, nextId + 1)
    ensures Lookup(r, name, version).Some?
    ensures r[Lookup(r, name, version).value] ==
      Row(if Lookup(rows, name, version).Some? then rows[Lookup(rows, name, version).value].id else nextId,
          name, version, priority, 0, registry)
    ensures forall row: Row :: !row.HasKey(name, version) ==> (row in r <==> row in rows)
    ensures |r| == |rows| + (if Lookup(rows, name, version).None? then 1 else 0)
  {
    match Lookup(rows, name, version)
    case Some(k) =>
      var x := Row(rows[k].id, name, version, priority, 0, registry);
      ReplaceRow(rows, nextId, k, x);
      LookupUnique(rows[k := x], nextId + 1, k);
      rows[k := x]
    case None =>
      var x := Row(nextId, name, version, priority, 0, registry);
      AppendRow(rows, nextId, x);
      LookupUnique(rows + [x], nextId + 1, |rows|);
      rows + [x]
  }


  /** A release the table does not hold goes to its end, with the next id and no attempts. */
  lemma UpsertNew(rows: seq<Row>, nextId: nat, name: string, version: string, priority: i32, registry: Option<string>)
    requires WellFormed(rows, nextId)
    requires forall i :: 0 <= i < |rows| ==> !rows[i].HasKey(name, version)
    ensures Upsert(rows, nextId, name, version, priority, registry) == rows + [Row(nextId, name, version, priority, 0, registry)]
  {
  }

  /** A release the table holds keeps its id and place; its attempts start over. */
  lemma UpsertExisting(rows: seq<Row>, nextId: nat, k: nat, priority: i32, registry: Option<string>)
    requires WellFormed(rows, nextId)
    requires k < |rows|
    ensures Upsert(rows, nextId, rows[k].name, rows[k].version, priority, registry) ==
      rows[k := rows[k].(priority := priority, attempt := 0, registry := registry)]
  {
    LookupUnique(rows, nextId, k);
  }

  /** An upsert keeps every release that was already queued. */
  lemma UpsertKeeps(rows: seq<Row>, nextId: nat, name: string, version: string, priority: i32, registry: Option<string>,
                    otherName: string, otherVersion: string)
    requires WellFormed(rows, nextId)
    requires Lookup(rows, otherName, otherVersion).Some?
    ensures var r := Upsert(rows, nextId, name, version, priority, registry);
      Lookup(r, otherName, otherVersion).Some? &&
      r[Lookup(r, otherName, otherVersion).value].id == rows[Lookup(rows, otherName, otherVersion).value].id
  {
    var r := Upsert(rows, nextId, name, version, priority, registry);
    var row := rows[Lookup(rows, otherName, otherVersion).value];
    if !row.HasKey(name, version) {
      assert row in rows;
      var j :| 0 <= j < |r| && r[j] == row;
      LookupUnique(r, nextId + 1, j);
    }
  }

  /** An upsert of another release leaves a release that is not queued unqueued. */
  lemma UpsertKeepsAbsent(rows: seq<Row>, nextId: nat, name: string, version: string, priority: i32, registry: Option<string>,
                          otherName: string, otherVersion: string)
    requires WellFormed(rows, nextId)
    requires Lookup(rows, otherName, otherVersion).None? && !(name == otherName && version == otherVersion)
    ensures Lookup(Upsert(rows, nextId, name, version, priority, registry), otherName, otherVersion).None?
  {
    var r := Upsert(rows, nextId, name, version, priority, registry);
    forall k | 0 <= k < |r| ensures !r[k].HasKey(otherName, otherVersion) {
      if !r[k].HasKey(name, version) {
        assert r[k] in rows;
      }
    }
  }

  /** `SELECT COUNT(*) FROM queue WHERE attempt < max_attempts`. */
  function PendingCount(rows: seq<Row>, maxAttempts: nat): (n: nat)
    ensures n <= |rows|
    ensures n == 0 <==> forall i :: 0 <= i < |rows| ==> !IsPending(rows[i], maxAttempts)
  {
    if rows == [] then 0
    else
      var here := if IsPending(rows[0], maxAttempts) then 1 else 0;
      here + PendingCount(rows[1..], maxAttempts)
  }

  /** `SELECT COUNT(*) FROM queue WHERE attempt < max_attempts AND priority <= 0`. */
  function PrioritizedCount(rows: seq<Row>, maxAttempts: nat): (n: nat)
    ensures n <= |rows|
    ensures n == 0 <==> forall i :: 0 <= i < |rows| ==> !(IsPending(rows[i], maxAttempts) && rows[i].priority <= 0)
  {
    if rows == [] then 0
    else
      var here := if IsPending(rows[0], maxAttempts) && rows[0].priority <= 0 then 1 else 0;
      here + PrioritizedCount(rows[1..], maxAttempts)
  }

  /** `SELECT COUNT(*) FROM queue WHERE attempt >= max_attempts`. */
  function FailedCount(rows: seq<Row>, maxAttempts: nat): (n: nat)
    ensures n <= |rows|
    ensures n == 0 <==> forall i :: 0 <= i < |rows| ==> IsPending(rows[i], maxAttempts)
  {
    if rows == [] then 0
    else
      var here := if IsPending(rows[0], maxAttempts) then 0 else 1;
      here + FailedCount(rows[1..], maxAttempts)
  }

  /** Every row is either pending or failed, never both. */
  lemma {:induction false} CountsPartition(rows: seq<Row>, maxAttempts: nat)
    ensures PendingCount(rows, maxAttempts) + FailedCount(rows, maxAttempts) == |rows|
  {
    if rows != [] {
      CountsPartition(rows[1..], maxAttempts);
    }
  }

  /**
    The prioritized rows are a subset of the pending ones, and the two counts agree
    exactly when no pending row is deprioritized.
   */
  lemma {:induction false} PrioritizedWithinPending(rows: seq<Row>, maxAttempts: nat)
    ensures PrioritizedCount(rows, maxAttempts) <= PendingCount(rows, maxAttempts)
    ensures PrioritizedCount(rows, maxAttempts) == PendingCount(rows, maxAttempts)
      <==> forall i :: 0 <= i < |rows| && IsPending(rows[i], maxAttempts) ==> rows[i].priority <= 0
  {
    if rows != [] {
      PrioritizedWithinPending(rows[1..], maxAttempts);
      assert forall i :: 1 <= i < |rows| ==> rows[i] == rows[1..][i - 1];
    }
  }

  /**
    How many more attempts the pending rows may still use up: every pending row
    has at least one and at most `maxAttempts` left. Each `process_next_crate`
    lowers it, so without new adds the queue drains.
   */
  function RemainingAttempts(rows: seq<Row>, maxAttempts: nat): (n: nat)
    ensures PendingCount(rows, maxAttempts) <= n
  {
    if rows == [] then 0
    else
      var here := if IsPending(rows[0], maxAttempts) then maxAttempts - rows[0].attempt else 0;
      here + RemainingAttempts(rows[1..], maxAttempts)
  }

  /** No pending row has more than `maxAttempts` attempts left. */
  lemma {:induction false} RemainingAttemptsBound(rows: seq<Row>, maxAttempts: nat)
    ensures RemainingAttempts(rows, maxAttempts) <= PendingCount(rows, maxAttempts) * maxAttempts
  {
    if rows != [] {
      var rest := rows[1..];
      RemainingAttemptsBound(rest, maxAttempts);
      var pending := PendingCount(rest, maxAttempts);
      var bound := pending * maxAttempts;
      if IsPending(rows[0], maxAttempts) {
        assert RemainingAttempts(rows, maxAttempts) <= maxAttempts + bound;
        assert PendingCount(rows, maxAttempts) == pending + 1;
        MulSucc(pending, maxAttempts);
      } else {
        assert RemainingAttempts(rows, maxAttempts) == RemainingAttempts(rest, maxAttempts);
        assert PendingCount(rows, maxAttempts) == pending;
      }
    }
  }

  lemma MulSucc(a: nat, b: nat)
    ensures (a + 1) * b == a * b + b
  {
  }

  /** The counts and the remaining attempts add up over a split of the table. */
  lemma {:induction false} CountsConcat(a: seq<Row>, b: seq<Row>, maxAttempts: nat)
    ensures PendingCount(a + b, maxAttempts) == PendingCount(a, maxAttempts) + PendingCount(b, maxAttempts)
    ensures PrioritizedCount(a + b, maxAttempts) == PrioritizedCount(a, maxAttempts) + PrioritizedCount(b, maxAttempts)
    ensures FailedCount(a + b, maxAttempts) == FailedCount(a, maxAttempts) + FailedCount(b, maxAttempts)
    ensures RemainingAttempts(a + b, maxAttempts) == RemainingAttempts(a, maxAttempts) + RemainingAttempts(b, maxAttempts)
  {
    if a == [] {
      assert a + b == b;
    } else {
      assert (a + b)[0] == a[0];
      assert (a + b)[1..] == a[1..] + b;
      CountsConcat(a[1..], b, maxAttempts);
    }
  }

  /** The pending rows, in table order (`WHERE attempt < max_attempts`). */
  function Pending(rows: seq<Row>, maxAttempts: nat): (p: seq<Row>)
    ensures |p| == PendingCount(rows, maxAttempts)
    ensures forall row :: row in p <==> row in rows && IsPending(row, maxAttempts)
  {
    if rows == [] then []
    else
      assert forall row :: row in rows <==> row == rows[0] || row in rows[1..];
      (if IsPending(rows[0], maxAttempts) then [rows[0]] else []) + Pending(rows[1..], maxAttempts)
  }

  /** s is in `ORDER BY priority, attempt, id` order. */
  ghost predicate Sorted(s: seq<Row>) {
    forall i, j :: 0 <= i < j < |s| ==> KeyLe(s[i], s[j])
  }

  /** Places x before the first element of s that x does not precede. */
  function InsertByKey(x: Row, s: seq<Row>): (r: seq<Row>)
    ensures multiset(r) == multiset(s) + multiset{x}
  {
    if s == [] then [x]
    else if KeyLe(x, s[0]) then [x] + s
    else
      assert s == [s[0]] + s[1..];
      [s[0]] + InsertByKey(x, s[1..])
  }

  /** A sorted sequence stays sorted when an element that precedes all of it is put in front. */
  lemma ConsSorted(a: Row, t: seq<Row>)
    requires Sorted(t)
    requires forall y :: y in t ==> KeyLe(a, y)
    ensures Sorted([a] + t)
  {
    var r := [a] + t;
    forall i, j | 0 <= i < j < |r| ensures KeyLe(r[i], r[j]) {
      assert r[j] == t[j - 1];
      if i > 0 {
        assert r[i] == t[i - 1];
      }
    }
  }

  /** The tail of a sorted sequence is sorted. */
  lemma TailSorted(s: seq<Row>)
    requires s != [] && Sorted(s)
    ensures Sorted(s[1..])
    ensures forall y :: y in s[1..] ==> KeyLe(s[0], y)
  {
    forall i, j | 0 <= i < j < |s[1..]| ensures KeyLe(s[1..][i], s[1..][j]) {
      assert s[1..][i] == s[i + 1] && s[1..][j] == s[j + 1];
    }
  }

  /** Inserting into a sorted sequence keeps it sorted. */
  lemma {:induction false} InsertSorted(x: Row, s: seq<Row>)
    requires Sorted(s)
    ensures Sorted(InsertByKey(x, s))
  {
    if s == [] {
    } else if KeyLe(x, s[0]) {
      assert forall y :: y in s ==> y == s[0] || y in s[1..];
      TailSorted(s);
      ConsSorted(x, s);
    } else {
      var t := InsertByKey(x, s[1..]);
      TailSorted(s);
      InsertSorted(x, s[1..]);
      forall y | y in t ensures KeyLe(s[0], y) {
        assert y in multiset(t);
      }
      ConsSorted(s[0], t);
    }
  }

  /** Sorts s by the queue's order (an insertion sort). */
  function SortByKey(s: seq<Row>): (r: seq<Row>)
    ensures Sorted(r)
    ensures multiset(r) == multiset(s)
  {
    if s == [] then []
    else
      assert s == [s[0]] + s[1..];
      InsertSorted(s[0], SortByKey(s[1..]));
      InsertByKey(s[0], SortByKey(s[1..]))
  }

  /**
    The rows behind `queued_crates`: `WHERE attempt < max_attempts ORDER BY
    priority ASC, attempt ASC, id ASC`.
   */
  function QueuedRows(rows: seq<Row>, maxAttempts: nat): (q: seq<Row>)
    ensures Sorted(q)
    ensures multiset(q) == multiset(Pending(rows, maxAttempts))
    ensures |q| == PendingCount(rows, maxAttempts)
    ensures forall row :: row in q <==> row in rows && IsPending(row, maxAttempts)
  {
    var p := Pending(rows, maxAttempts);
    var q := SortByKey(p);
    assert forall row :: row in q <==> row in multiset(p);
    assert |q| == |multiset(q)|;
    q
  }

  /** The table's primary key, on any sequence of rows. */
  ghost predicate DistinctIds(s: seq<Row>) {
    forall i, j :: 0 <= i < j < |s| ==> s[i].id != s[j].id
  }

  /** Two sorted arrangements of the same rows with distinct ids start with the same row. */
  lemma SameHead(a: seq<Row>, b: seq<Row>)
    requires a != [] && Sorted(a) && Sorted(b) && multiset(a) == multiset(b) && DistinctIds(b)
    ensures b != [] && a[0] == b[0]
  {
    assert a[0] in multiset(b);
    var k :| 0 <= k < |b| && b[k] == a[0];
    assert b[0] in multiset(a);
    var m :| 0 <= m < |a| && a[m] == b[0];
    assert KeyLe(a[0], b[0]) by {
      if m > 0 {
        assert KeyLe(a[0], a[m]);
      }
    }
  }

  /** Dropping the head removes one copy of it. */
  lemma MultisetTail(s: seq<Row>)
    requires s != []
    ensures multiset(s[1..]) == multiset(s) - multiset{s[0]}
  {
    assert s == [s[0]] + s[1..];
  }

  /** Dropping the head keeps the ids distinct. */
  lemma DistinctTail(s: seq<Row>)
    requires s != [] && DistinctIds(s)
    ensures DistinctIds(s[1..])
  {
    forall i, j | 0 <= i < j < |s[1..]| ensures s[1..][i].id != s[1..][j].id {
      assert s[1..][i] == s[i + 1] && s[1..][j] == s[j + 1];
    }
  }

  /** Rows with distinct ids have exactly one arrangement in the queue's order. */
  lemma {:induction false} SortedUnique(a: seq<Row>, b: seq<Row>)
    requires Sorted(a) && Sorted(b) && multiset(a) == multiset(b) && DistinctIds(b)
    ensures a == b
    decreases |a|
  {
    assert |a| == |multiset(a)| == |multiset(b)| == |b|;
    if a != [] {
      SameHead(a, b);
      MultisetTail(a);
      MultisetTail(b);
      DistinctTail(b);
      TailSorted(a);
      TailSorted(b);
      SortedUnique(a[1..], b[1..]);
    }
  }

  /**
    The listing is determined by the pending rows alone: any sorted
    arrangement of them with distinct ids is the listing.
   */
  lemma QueuedRowsUnique(rows: seq<Row>, maxAttempts: nat, s: seq<Row>)
    requires Sorted(s) && multiset(s) == multiset(Pending(rows, maxAttempts)) && DistinctIds(s)
    ensures QueuedRows(rows, maxAttempts) == s
  {
    SortedUnique(QueuedRows(rows, maxAttempts), s);
  }

  /** `queued_crates`: the pending crates, highest priority (lowest value) first. */
  function QueuedCrates(rows: seq<Row>, maxAttempts: nat): (q: seq<QueuedCrate>)
    ensures |q| == PendingCount(rows, maxAttempts)
    ensures forall i, j :: 0 <= i < j < |q| ==> q[i].priority <= q[j].priority
  {
    var s := QueuedRows(rows, maxAttempts);
    seq(|s|, i requires 0 <= i < |s| => s[i].Crate())
  }

  /** Every listed crate is the projection of a pending row. */
  lemma ListedIsPending(rows: seq<Row>, maxAttempts: nat, k: nat)
    requires k < |QueuedCrates(rows, maxAttempts)|
    ensures exists i :: 0 <= i < |rows| && IsPending(rows[i], maxAttempts) && rows[i].Crate() == QueuedCrates(rows, maxAttempts)[k]
  {
    var s := QueuedRows(rows, maxAttempts);
    assert s[k] in s;
    var i :| 0 <= i < |rows| && rows[i] == s[k];
    assert IsPending(rows[i], maxAttempts);
  }

  /** Every pending row is listed. */
  lemma PendingIsListed(rows: seq<Row>, maxAttempts: nat, i: nat)
    requires i < |rows| && IsPending(rows[i], maxAttempts)
    ensures rows[i].Crate() in QueuedCrates(rows, maxAttempts)
  {
    var s := QueuedRows(rows, maxAttempts);
    assert rows[i] in s;
    var k :| 0 <= k < |s| && s[k] == rows[i];
    assert QueuedCrates(rows, maxAttempts)[k] == rows[i].Crate();
  }

  /** A crate is listed exactly when it is the projection of a pending row. */
  lemma QueuedCratesArePending(rows: seq<Row>, maxAttempts: nat, c: QueuedCrate)
    ensures c in QueuedCrates(rows, maxAttempts)
      <==> exists i :: 0 <= i < |rows| && IsPending(rows[i], maxAttempts) && rows[i].Crate() == c
  {
    var q := QueuedCrates(rows, maxAttempts);
    if c in q {
      var k :| 0 <= k < |q| && q[k] == c;
      ListedIsPending(rows, maxAttempts, k);
    }
    if exists i :: 0 <= i < |rows| && IsPending(rows[i], maxAttempts) && rows[i].Crate() == c {
      var i :| 0 <= i < |rows| && IsPending(rows[i], maxAttempts) && rows[i].Crate() == c;
      PendingIsListed(rows, maxAttempts, i);
    }
  }

  /**
    `SELECT ... WHERE attempt < max_attempts ORDER BY priority, attempt, id LIMIT 1`:
    the position of the first pending row in the queue's order, if any.
   */
  function NextCrate(rows: seq<Row>, maxAttempts: nat): (r: Option<nat>)
    ensures r.None? <==> forall j :: 0 <= j < |rows| ==> !IsPending(rows[j], maxAttempts)
    ensures r.Some? ==> r.value < |rows| && IsPending(rows[r.value], maxAttempts)
    ensures r.Some? ==> forall j :: 0 <= j < |rows| && IsPending(rows[j], maxAttempts) ==> KeyLe(rows[r.value], rows[j])
  {
    if rows == [] then None
    else
      var rest := NextCrate(rows[1..], maxAttempts);
      assert forall j :: 1 <= j < |rows| ==> rows[1..][j - 1] == rows[j];
      if IsPending(rows[0], maxAttempts) && (rest.None? || KeyLe(rows[0], rows[1..][rest.value])) then Some(0)
      else if rest.Some? then Some(rest.value + 1)
      else None
  }

  /** The row `process_next_crate` picks is the head of the `queued_crates` listing. */
  lemma NextIsFirstQueued(rows: seq<Row>, nextId: nat, maxAttempts: nat)
    requires WellFormed(rows, nextId)
    ensures NextCrate(rows, maxAttempts).None? <==> QueuedRows(rows, maxAttempts) == []
    ensures NextCrate(rows, maxAttempts).Some? ==>
      QueuedRows(rows, maxAttempts)[0] == rows[NextCrate(rows, maxAttempts).value]
  {
    var q := QueuedRows(rows, maxAttempts);
    var n := NextCrate(rows, maxAttempts);
    if n.Some? {
      var i := n.value;
      assert rows[i] in q;
      assert q != [];
      assert q[0] in q;
      var j :| 0 <= j < |rows| && rows[j] == q[0];
      assert KeyLe(rows[i], rows[j]);
      var k :| 0 <= k < |q| && q[k] == rows[i];
      assert k == 0 || KeyLe(q[0], q[k]);
      assert rows[i].id == rows[j].id;
      assert i == j;
    }
  }

  /**
    What `process_next_crate` does to the picked row i once the build returned:
    `DELETE FROM queue WHERE id = $1` on success, `UPDATE queue SET attempt =
    attempt + 1 WHERE id = $1` on failure.
   */
  function Settle(rows: seq<Row>, i: nat, succeeded: bool): (r: seq<Row>)
    requires i < |rows|
    ensures |r| == if succeeded then |rows| - 1 else |rows|
  {
    if succeeded then rows[..i] + rows[i + 1..]
    else rows[i := rows[i].(attempt := rows[i].attempt + 1)]
  }

  /** The failure after which the row is no longer pending, counted by `failed_builds`. */
  predicate RetiresRow(row: Row, succeeded: bool, maxAttempts: nat): (b: bool)
    ensures b <==> !succeeded && !IsPending(row.(attempt := row.attempt + 1), maxAttempts)
  {
    !succeeded && row.attempt + 1 >= maxAttempts
  }

  /** Deleting or re-counting one row keeps the table's constraints. */
  lemma SettleKeepsWellFormed(rows: seq<Row>, nextId: nat, i: nat, succeeded: bool)
    requires WellFormed(rows, nextId)
    requires i < |rows|
    ensures WellFormed(Settle(rows, i, succeeded), nextId)
  {
    var r := Settle(rows, i, succeeded);
    if succeeded {
      assert forall j :: 0 <= j < |r| ==> r[j] == rows[if j < i then j else j + 1];
    }
  }

  /** A successful build removes exactly the built row: its release is gone, every other row stays. */
  lemma SettleSucceeded(rows: seq<Row>, nextId: nat, i: nat)
    requires WellFormed(rows, nextId)
    requires i < |rows|
    ensures |Settle(rows, i, true)| == |rows| - 1
    ensures Lookup(Settle(rows, i, true), rows[i].name, rows[i].version).None?
    ensures forall row :: row in Settle(rows, i, true) <==> row in rows && row.id != rows[i].id
  {
    var r := Settle(rows, i, true);
    assert forall j :: 0 <= j < |r| ==> r[j] == rows[if j < i then j else j + 1];
    forall row ensures row in r <==> row in rows && row.id != rows[i].id {
      if row in rows && row.id != rows[i].id {
        var j :| 0 <= j < |rows| && rows[j] == row;
        assert r[if j < i then j else j - 1] == row;
      }
    }
  }

  /**
    A failed build leaves every row but the built one alone and raises the built
    row's attempt count by one; the row stays pending unless that reaches the budget.
   */
  lemma SettleFailed(rows: seq<Row>, i: nat, maxAttempts: nat)
    requires i < |rows|
    ensures |Settle(rows, i, false)| == |rows|
    ensures forall j :: 0 <= j < |rows| && j != i ==> Settle(rows, i, false)[j] == rows[j]
    ensures Settle(rows, i, false)[i].Crate() == rows[i].Crate()
    ensures Settle(rows, i, false)[i].attempt == rows[i].attempt + 1
    ensures IsPending(Settle(rows, i, false)[i], maxAttempts) <==> !RetiresRow(rows[i], false, maxAttempts)
  {
  }

  /**
    A successful build takes its row out of the pending count and leaves the
    failed count alone.
   */
  lemma SettleSucceededCounts(rows: seq<Row>, i: nat, maxAttempts: nat)
    requires i < |rows| && IsPending(rows[i], maxAttempts)
    ensures PendingCount(Settle(rows, i, true), maxAttempts) == PendingCount(rows, maxAttempts) - 1
    ensures FailedCount(Settle(rows, i, true), maxAttempts) == FailedCount(rows, maxAttempts)
    ensures RemainingAttempts(Settle(rows, i, true), maxAttempts) < RemainingAttempts(rows, maxAttempts)
  {
    assert rows == rows[..i] + [rows[i]] + rows[i + 1..];
    CountsConcat(rows[..i] + [rows[i]], rows[i + 1..], maxAttempts);
    CountsConcat(rows[..i], [rows[i]], maxAttempts);
    CountsConcat(rows[..i], rows[i + 1..], maxAttempts);
  }

  /** Building the picked pending row, whatever the outcome, uses up one of the remaining attempts at least. */
  lemma SettleDrains(rows: seq<Row>, i: nat, succeeded: bool, maxAttempts: nat)
    requires i < |rows| && IsPending(rows[i], maxAttempts)
    ensures RemainingAttempts(Settle(rows, i, succeeded), maxAttempts) < RemainingAttempts(rows, maxAttempts)
  {
    if succeeded {
      SettleSucceededCounts(rows, i, maxAttempts);
    } else {
      SettleFailedCounts(rows, i, maxAttempts);
    }
  }

  /**
    The table after `process_next_crate` is called once per outcome, in order, with no
    additions in between: each call settles the selected row with its outcome, and a
    call that finds no pending row changes nothing.
   */
  function ProcessAll(rows: seq<Row>, maxAttempts: nat, outcomes: seq<bool>): (r: seq<Row>)
    ensures |r| <= |rows|
    decreases |outcomes|
  {
    if outcomes == [] then rows
    else match NextCrate(rows, maxAttempts)
      case None => rows
      case Some(i) => ProcessAll(Settle(rows, i, outcomes[0]), maxAttempts, outcomes[1..])
  }

  /** As many builds as there are attempts left leave nothing pending. */
  lemma {:induction false} ProcessAllDrains(rows: seq<Row>, maxAttempts: nat, outcomes: seq<bool>)
    requires RemainingAttempts(rows, maxAttempts) <= |outcomes|
    ensures PendingCount(ProcessAll(rows, maxAttempts, outcomes), maxAttempts) == 0
    decreases |outcomes|
  {
    if outcomes != [] {
      match NextCrate(rows, maxAttempts)
      case None =>
      case Some(i) =>
        SettleDrains(rows, i, outcomes[0], maxAttempts);
        ProcessAllDrains(Settle(rows, i, outcomes[0]), maxAttempts, outcomes[1..]);
    }
  }

  /**
    Without new additions, pending_count × max_attempts calls of `process_next_crate`,
    whatever their outcomes, leave no row pending.
   */
  lemma QueueDrains(rows: seq<Row>, maxAttempts: nat, outcomes: seq<bool>)
    requires PendingCount(rows, maxAttempts) * maxAttempts <= |outcomes|
    ensures PendingCount(ProcessAll(rows, maxAttempts, outcomes), maxAttempts) == 0
  {
    RemainingAttemptsBound(rows, maxAttempts);
    ProcessAllDrains(rows, maxAttempts, outcomes);
  }

  /**
    A failed build moves its row from the pending count to the failed count
    exactly when it retires the row, and uses up one of the remaining attempts.
   */
  lemma {:induction false} SettleFailedCounts(rows: seq<Row>, i: nat, maxAttempts: nat)
    requires i < |rows| && IsPending(rows[i], maxAttempts)
    ensures PendingCount(Settle(rows, i, false), maxAttempts) ==
      PendingCount(rows, maxAttempts) - (if RetiresRow(rows[i], false, maxAttempts) then 1 else 0)
    ensures FailedCount(Settle(rows, i, false), maxAttempts) ==
      FailedCount(rows, maxAttempts) + (if RetiresRow(rows[i], false, maxAttempts) then 1 else 0)
    ensures RemainingAttempts(Settle(rows, i, false), maxAttempts) < RemainingAttempts(rows, maxAttempts)
  {
    var r := Settle(rows, i, false);
    if i == 0 {
      assert r[1..] == rows[1..];
    } else {
      assert r[1..] == Settle(rows[1..], i - 1, false);
      SettleFailedCounts(rows[1..], i - 1, maxAttempts);
    }
  }
}
