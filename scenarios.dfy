/**
  The unit tests of the build queue restated on the model: each method
  makes the same calls on a fresh queue, and its postcondition is what the
  test asserts. Three more call sequences cover `get_new_crates` and
  `build_next_queue_package`, which the unit tests do not reach. The table
  states a sequence passes through are spelled out as constants, with a lemma
  per step saying which row is taken and what the table becomes.
 */
module Scenarios {
  import opened Common
  import opened QueueTable
  import opened Config
  import opened Backoff
  import opened Changes
  import opened BuildQueues

  /**
    `add_crate` of a release the queue does not hold yet, from crates.io;
    `row` is the row it creates.
   */
  method AddRow(q: BuildQueue, row: Row)
    requires q.Valid()
    requires row.id == q.nextId && row.attempt == 0
    requires forall i :: 0 <= i < |q.rows| ==> !q.rows[i].HasKey(row.name, row.version)
    modifies q
    ensures q.Valid()
    ensures q.rows == old(q.rows) + [row] && q.nextId == old(q.nextId) + 1
    ensures q.config == old(q.config) && q.totalBuilds == old(q.totalBuilds) && q.failedBuilds == old(q.failedBuilds)
  {
    UpsertNew(q.rows, q.nextId, row.name, row.version, row.priority, row.registry);
    q.AddCrate(row.name, row.version, row.priority, row.registry);
  }

  /** `process_next_crate` when the row it will take is known. */
  method Take(q: BuildQueue, succeeds: bool, ghost i: nat) returns (name: string)
    requires q.Valid() && NextCrate(q.rows, q.maxAttempts) == Some(i)
    modifies q
    ensures q.Valid()
    ensures name == old(q.rows)[i].name
    ensures q.rows == Settle(old(q.rows), i, succeeds)
    ensures q.totalBuilds == old(q.totalBuilds) + 1
    ensures q.failedBuilds == old(q.failedBuilds) + (if RetiresRow(old(q.rows)[i], succeeds, q.maxAttempts) then 1 else 0)
    ensures q.nextId == old(q.nextId) && q.config == old(q.config)
  {
    var given := q.ProcessNextCrate(succeeds);
    name := given.value.name;
  }

  // test_add_and_process_crates

  const Low := Row(1, "low-priority", "1.0.0", 1000, 0, None)
  const Foo := Row(2, "high-priority-foo", "1.0.0", -1000, 0, None)
  const Medium := Row(3, "medium-priority", "1.0.0", -10, 0, None)
  const Bar := Row(4, "high-priority-bar", "1.0.0", -1000, 0, None)
  const Standard := Row(5, "standard-priority", "1.0.0", 0, 0, None)
  const Baz := Row(6, "high-priority-baz", "1.0.0", -1000, 0, None)
  const BarRetried := Row(4, "high-priority-bar", "1.0.0", -1000, 1, None)

  /** The six crates added in the test's order. */
  method EnqueueSix(q: BuildQueue)
    requires q.Valid() && q.rows == [] && q.nextId == 1
    modifies q
    ensures q.Valid() && q.rows == [Low, Foo, Medium, Bar, Standard, Baz]
    ensures q.totalBuilds == old(q.totalBuilds) && q.failedBuilds == old(q.failedBuilds)
  {
    AddRow(q, Low);
    AddRow(q, Foo);
    AddRow(q, Medium);
    AddRow(q, Bar);
    AddRow(q, Standard);
    AddRow(q, Baz);
  }

  // The row each call takes, and the table it leaves behind.

  lemma FooFirst()
    ensures NextCrate([Low, Foo, Medium, Bar, Standard, Baz], 3) == Some(1)
    ensures Settle([Low, Foo, Medium, Bar, Standard, Baz], 1, true) == [Low, Medium, Bar, Standard, Baz]
  {
    assert NextCrate([Standard, Baz], 3) == Some(1);
    assert NextCrate([Bar, Standard, Baz], 3) == Some(0);
    assert NextCrate([Medium, Bar, Standard, Baz], 3) == Some(1);
    assert NextCrate([Foo, Medium, Bar, Standard, Baz], 3) == Some(0);
  }

  lemma BarFails()
    ensures NextCrate([Low, Medium, Bar, Standard, Baz], 3) == Some(2)
    ensures Settle([Low, Medium, Bar, Standard, Baz], 2, false) == [Low, Medium, BarRetried, Standard, Baz]
  {
    assert NextCrate([Standard, Baz], 3) == Some(1);
    assert NextCrate([Bar, Standard, Baz], 3) == Some(0);
    assert NextCrate([Medium, Bar, Standard, Baz], 3) == Some(1);
  }

  lemma BazBeforeRetry()
    ensures NextCrate([Low, Medium, BarRetried, Standard, Baz], 3) == Some(4)
    ensures Settle([Low, Medium, BarRetried, Standard, Baz], 4, true) == [Low, Medium, BarRetried, Standard]
  {
    assert NextCrate([Standard, Baz], 3) == Some(1);
    assert NextCrate([BarRetried, Standard, Baz], 3) == Some(2);
    assert NextCrate([Medium, BarRetried, Standard, Baz], 3) == Some(3);
  }

  lemma BarRetriedNext()
    ensures NextCrate([Low, Medium, BarRetried, Standard], 3) == Some(2)
    ensures Settle([Low, Medium, BarRetried, Standard], 2, true) == [Low, Medium, Standard]
  {
    assert NextCrate([BarRetried, Standard], 3) == Some(0);
    assert NextCrate([Medium, BarRetried, Standard], 3) == Some(1);
  }

  lemma LowerTiers()
    ensures NextCrate([Low, Medium, Standard], 3) == Some(1)
    ensures Settle([Low, Medium, Standard], 1, true) == [Low, Standard]
    ensures NextCrate([Low, Standard], 3) == Some(1)
    ensures Settle([Low, Standard], 1, true) == [Low]
  {
    assert NextCrate([Medium, Standard], 3) == Some(0);
  }

  lemma LowFailsOut(a: nat)
    ensures a < 3 ==> NextCrate([Low.(attempt := a)], 3) == Some(0)
    ensures Settle([Low.(attempt := a)], 0, false) == [Low.(attempt := a + 1)]
    ensures NextCrate([Low.(attempt := 3)], 3).None?
  {
  }

  /** The -1000 tier, with bar failing once; bar is retried only after baz. */
  method ProcessTopTier(q: BuildQueue) returns (order: seq<string>)
    requires q.Valid() && q.maxAttempts == 3 && q.rows == [Low, Foo, Medium, Bar, Standard, Baz]
    modifies q
    ensures q.Valid() && q.rows == [Low, Medium, Standard]
    ensures order == ["high-priority-foo", "high-priority-bar", "high-priority-baz", "high-priority-bar"]
    ensures q.totalBuilds == old(q.totalBuilds) + 4 && q.failedBuilds == old(q.failedBuilds)
  {
    FooFirst();
    var n1 := Take(q, true, 1);
    BarFails();
    var n2 := Take(q, false, 2);
    BazBeforeRetry();
    var n3 := Take(q, true, 4);
    BarRetriedNext();
    var n4 := Take(q, true, 2);
    order := [n1, n2, n3, n4];
  }

  /** The lower tiers: medium and standard succeed, low fails three times and drops out. */
  method ProcessLowerTiers(q: BuildQueue) returns (order: seq<string>, emptied: bool)
    requires q.Valid() && q.maxAttempts == 3 && q.rows == [Low, Medium, Standard]
    modifies q
    ensures order == ["medium-priority", "standard-priority", "low-priority", "low-priority", "low-priority"]
    ensures emptied
    ensures q.totalBuilds == old(q.totalBuilds) + 5 && q.failedBuilds == old(q.failedBuilds) + 1
  {
    LowerTiers();
    var n1 := Take(q, true, 1);
    var n2 := Take(q, true, 1);
    LowFailsOut(0);
    var n3 := Take(q, false, 0);
    LowFailsOut(1);
    var n4 := Take(q, false, 0);
    LowFailsOut(2);
    var n5 := Take(q, false, 0);
    order := [n1, n2, n3, n4, n5];
    var last := q.ProcessNextCrate(true);
    emptied := last.None?;
  }

  /** `test_add_and_process_crates`, with `build_attempts = 3`. */
  method AddAndProcess() returns (order: seq<string>, emptied: bool, total: nat, failed: nat)
    ensures order == ["high-priority-foo", "high-priority-bar", "high-priority-baz", "high-priority-bar",
                      "medium-priority", "standard-priority", "low-priority", "low-priority", "low-priority"]
    ensures emptied
    ensures total == 9 && failed == 1
  {
    var q := new BuildQueue(3);
    EnqueueSix(q);
    var first := ProcessTopTier(q);
    var rest;
    rest, emptied := ProcessLowerTiers(q);
    order := first + rest;
    total, failed := q.totalBuilds, q.failedBuilds;
  }

  // test_add_duplicate_doesnt_fail_last_priority_wins, test_add_duplicate_resets_attempts_and_priority

  const SomeCrate := Row(1, "some_crate", "0.1.1", 0, 0, None)

  lemma SomeCrateListed()
    ensures QueuedCrates([SomeCrate.(priority := 9)], 5) == [SomeCrate.(priority := 9).Crate()]
  {
  }

  /** `test_add_duplicate_doesnt_fail_last_priority_wins`. */
  method DuplicateLastPriorityWins() returns (listed: seq<QueuedCrate>)
    ensures |listed| == 1 && listed[0].priority == 9
  {
    var q := new BuildQueue(5);
    AddRow(q, SomeCrate);
    UpsertExisting(q.rows, q.nextId, 0, 9, None);
    q.AddCrate("some_crate", "0.1.1", 9, None);
    SomeCrateListed();
    listed := QueuedCrates(q.rows, q.maxAttempts);
  }

  const Retired := Row(1, "failed_crate", "0.1.1", 0, 99, None)

  /** `test_add_duplicate_resets_attempts_and_priority`, with `build_attempts = 5`. */
  method DuplicateResetsAttempts() returns (before: nat, after: nat, row: Row)
    ensures before == 0 && after == 1
    ensures row.priority == 9 && row.attempt == 0
  {
    var q := new BuildQueue(5);
    q.rows, q.nextId := [Retired], 2;
    before := PendingCount(q.rows, q.maxAttempts);
    UpsertExisting(q.rows, q.nextId, 0, 9, None);
    q.AddCrate("failed_crate", "0.1.1", 9, None);
    assert q.rows == [Retired.(priority := 9, attempt := 0)];
    after := PendingCount(q.rows, q.maxAttempts);
    row := q.rows[0];
  }

  // test_pending_count

  const PendingFoo := Row(1, "foo", "1.0.0", 0, 0, None)
  const PendingBar := Row(2, "bar", "1.0.0", 0, 0, None)

  lemma PendingSteps()
    ensures PendingCount([], 5) == 0 && PendingCount([PendingFoo], 5) == 1
    ensures PendingCount([PendingFoo, PendingBar], 5) == 2
    ensures NextCrate([PendingFoo, PendingBar], 5) == Some(0)
    ensures Settle([PendingFoo, PendingBar], 0, true) == [PendingBar]
    ensures PendingCount([PendingBar], 5) == 1
  {
  }

  /** The two adds of `test_pending_count`, with the count after each. */
  method PendingAdds(q: BuildQueue) returns (counts: seq<nat>)
    requires q.Valid() && q.maxAttempts == 5 && q.rows == [] && q.nextId == 1
    modifies q
    ensures q.Valid() && q.rows == [PendingFoo, PendingBar]
    ensures counts == [0, 1, 2]
  {
    PendingSteps();
    var c0 := PendingCount(q.rows, q.maxAttempts);
    AddRow(q, PendingFoo);
    var c1 := PendingCount(q.rows, q.maxAttempts);
    AddRow(q, PendingBar);
    var c2 := PendingCount(q.rows, q.maxAttempts);
    counts := [c0, c1, c2];
  }

  /** `test_pending_count`. */
  method PendingCounts() returns (counts: seq<nat>, taken: string)
    ensures counts == [0, 1, 2, 1] && taken == "foo"
  {
    var q := new BuildQueue(5);
    counts := PendingAdds(q);
    PendingSteps();
    taken := Take(q, true, 0);
    counts := counts + [PendingCount(q.rows, q.maxAttempts)];
  }

  // test_prioritized_count

  const CountedFoo := Row(1, "foo", "1.0.0", 0, 0, None)
  const CountedBar := Row(2, "bar", "1.0.0", -100, 0, None)
  const CountedBaz := Row(3, "baz", "1.0.0", 100, 0, None)

  lemma PrioritizedSteps()
    ensures PrioritizedCount([], 5) == 0
    ensures PrioritizedCount([CountedFoo], 5) == 1
    ensures PrioritizedCount([CountedFoo, CountedBar], 5) == 2
    ensures PrioritizedCount([CountedFoo, CountedBar, CountedBaz], 5) == 2
    ensures PrioritizedCount([CountedFoo, CountedBaz], 5) == 1
  {
  }

  lemma BarTakenFirst()
    ensures NextCrate([CountedFoo, CountedBar, CountedBaz], 5) == Some(1)
    ensures Settle([CountedFoo, CountedBar, CountedBaz], 1, true) == [CountedFoo, CountedBaz]
  {
    assert NextCrate([CountedBar, CountedBaz], 5) == Some(0);
  }

  /** The three adds of `test_prioritized_count`, with the count after each. */
  method PrioritizedAdds(q: BuildQueue) returns (counts: seq<nat>)
    requires q.Valid() && q.maxAttempts == 5 && q.rows == [] && q.nextId == 1
    modifies q
    ensures q.Valid() && q.rows == [CountedFoo, CountedBar, CountedBaz]
    ensures counts == [0, 1, 2, 2]
  {
    PrioritizedSteps();
    var c0 := PrioritizedCount(q.rows, q.maxAttempts);
    AddRow(q, CountedFoo);
    var c1 := PrioritizedCount(q.rows, q.maxAttempts);
    AddRow(q, CountedBar);
    var c2 := PrioritizedCount(q.rows, q.maxAttempts);
    AddRow(q, CountedBaz);
    var c3 := PrioritizedCount(q.rows, q.maxAttempts);
    counts := [c0, c1, c2, c3];
  }

  /** `test_prioritized_count`. */
  method PrioritizedCounts() returns (counts: seq<nat>, taken: string)
    ensures counts == [0, 1, 2, 2, 1] && taken == "bar"
  {
    var q := new BuildQueue(5);
    counts := PrioritizedAdds(q);
    BarTakenFirst();
    taken := Take(q, true, 1);
    PrioritizedSteps();
    counts := counts + [PrioritizedCount(q.rows, q.maxAttempts)];
  }

  // test_failed_count

  /** The failing crate of `test_failed_count` after a attempts. */
  function FailingFoo(a: nat): Row {
    Row(1, "foo", "1.0.0", -100, a, None)
  }

  const WaitingBar := Row(2, "bar", "1.0.0", 0, 0, None)

  lemma FooTakenFirst(a: nat)
    requires a < 3
    ensures NextCrate([FailingFoo(a), WaitingBar], 3) == Some(0)
    ensures Settle([FailingFoo(a), WaitingBar], 0, false) == [FailingFoo(a + 1), WaitingBar]
    ensures FailedCount([FailingFoo(a), WaitingBar], 3) == 0
  {
  }

  lemma BarAfterFoo()
    ensures FailedCount([], 3) == 0 && FailedCount([FailingFoo(0)], 3) == 0
    ensures FailedCount([FailingFoo(3), WaitingBar], 3) == 1
    ensures NextCrate([FailingFoo(3), WaitingBar], 3) == Some(1)
    ensures Settle([FailingFoo(3), WaitingBar], 1, true) == [FailingFoo(3)]
    ensures FailedCount([FailingFoo(3)], 3) == 1
  {
  }

  /** foo's three failures, with the failed count before each. */
  method FooFailsThrice(q: BuildQueue) returns (counts: seq<nat>, taken: seq<string>)
    requires q.Valid() && q.maxAttempts == 3 && q.rows == [FailingFoo(0), WaitingBar]
    modifies q
    ensures q.Valid() && q.rows == [FailingFoo(3), WaitingBar]
    ensures counts == [0, 0, 0] && taken == ["foo", "foo", "foo"]
  {
    FooTakenFirst(0);
    var c0 := FailedCount(q.rows, q.maxAttempts);
    var t0 := Take(q, false, 0);
    FooTakenFirst(1);
    var c1 := FailedCount(q.rows, q.maxAttempts);
    var t1 := Take(q, false, 0);
    FooTakenFirst(2);
    var c2 := FailedCount(q.rows, q.maxAttempts);
    var t2 := Take(q, false, 0);
    counts, taken := [c0, c1, c2], [t0, t1, t2];
  }

  /** `test_failed_count`, with `build_attempts = 3`. */
  method FailedCounts() returns (counts: seq<nat>, taken: seq<string>)
    ensures counts == [0, 0, 0, 0, 0, 1, 1]
    ensures taken == ["foo", "foo", "foo", "bar"]
  {
    BarAfterFoo();
    var q := new BuildQueue(3);
    var c0 := FailedCount(q.rows, q.maxAttempts);
    AddRow(q, FailingFoo(0));
    var c1 := FailedCount(q.rows, q.maxAttempts);
    AddRow(q, WaitingBar);
    var during, foos := FooFailsThrice(q);
    var c5 := FailedCount(q.rows, q.maxAttempts);
    var bar := Take(q, true, 1);
    var c6 := FailedCount(q.rows, q.maxAttempts);
    counts := [c0, c1] + during + [c5, c6];
    taken := foos + [bar];
  }

  // test_queued_crates

  const ListedBar := Row(1, "bar", "1.0.0", 0, 0, None)
  const ListedFoo := Row(2, "foo", "1.0.0", -10, 0, None)
  const ListedBaz := Row(3, "baz", "1.0.0", 10, 0, None)

  lemma ListingPending()
    ensures Pending([ListedBar, ListedFoo, ListedBaz], 5) == [ListedBar, ListedFoo, ListedBaz]
  {
  }

  lemma ListingArranged()
    ensures Sorted([ListedFoo, ListedBar, ListedBaz]) && DistinctIds([ListedFoo, ListedBar, ListedBaz])
  {
    assert KeyLe(ListedFoo, ListedBar) && KeyLe(ListedBar, ListedBaz) && KeyLe(ListedFoo, ListedBaz);
  }

  lemma SwapFirstTwo(x: Row, y: Row, z: Row)
    ensures multiset([x, y, z]) == multiset([y, x, z])
  {
    assert [x, y, z] == [x] + [y] + [z] && [y, x, z] == [y] + [x] + [z];
  }

  lemma ListingSameRows()
    ensures multiset([ListedFoo, ListedBar, ListedBaz]) == multiset(Pending([ListedBar, ListedFoo, ListedBaz], 5))
  {
    ListingPending();
    SwapFirstTwo(ListedFoo, ListedBar, ListedBaz);
  }

  lemma ListingRows()
    ensures QueuedRows([ListedBar, ListedFoo, ListedBaz], 5) == [ListedFoo, ListedBar, ListedBaz]
  {
    ListingArranged();
    ListingSameRows();
    QueuedRowsUnique([ListedBar, ListedFoo, ListedBaz], 5, [ListedFoo, ListedBar, ListedBaz]);
  }

  lemma ListedThree(rows: seq<Row>, maxAttempts: nat, a: Row, b: Row, c: Row)
    requires QueuedRows(rows, maxAttempts) == [a, b, c]
    ensures QueuedCrates(rows, maxAttempts) == [a.Crate(), b.Crate(), c.Crate()]
  {
    var q := QueuedCrates(rows, maxAttempts);
    assert |q| == 3;
    assert q[0] == a.Crate() && q[1] == b.Crate() && q[2] == c.Crate();
  }

  lemma ListingOrder()
    ensures QueuedCrates([ListedBar, ListedFoo, ListedBaz], 5) == [ListedFoo.Crate(), ListedBar.Crate(), ListedBaz.Crate()]
  {
    ListingRows();
    ListedThree([ListedBar, ListedFoo, ListedBaz], 5, ListedFoo, ListedBar, ListedBaz);
  }

  /** The three crates of `test_queued_crates`, in the test's order. */
  method EnqueueListed(q: BuildQueue)
    requires q.Valid() && q.rows == [] && q.nextId == 1
    modifies q
    ensures q.Valid() && q.rows == [ListedBar, ListedFoo, ListedBaz]
  {
    AddRow(q, ListedBar);
    AddRow(q, ListedFoo);
    AddRow(q, ListedBaz);
  }

  /** The listing as the test compares it: name, version and priority. */
  function Summary(crates: seq<QueuedCrate>): seq<(string, string, int)> {
    seq(|crates|, i requires 0 <= i < |crates| => (crates[i].name, crates[i].version, crates[i].priority as int))
  }

  lemma ListingSummary()
    ensures Summary([ListedFoo.Crate(), ListedBar.Crate(), ListedBaz.Crate()]) ==
      [("foo", "1.0.0", -10), ("bar", "1.0.0", 0), ("baz", "1.0.0", 10)]
  {
  }

  /** `test_queued_crates`: the listing is ordered by priority. */
  method QueuedInPriorityOrder() returns (listed: seq<(string, string, int)>)
    ensures listed == [("foo", "1.0.0", -10), ("bar", "1.0.0", 0), ("baz", "1.0.0", 10)]
  {
    var q := new BuildQueue(5);
    EnqueueListed(q);
    ListingOrder();
    ListingSummary();
    listed := Summary(QueuedCrates(q.rows, q.maxAttempts));
  }

  /** `test_queue_lock`. */
  method QueueLock() returns (initially: Result<bool>, locked: Result<bool>, unlocked: Result<bool>)
    ensures initially == Ok(false) && locked == Ok(true) && unlocked == Ok(false)
  {
    var q := new BuildQueue(5);
    initially := IsLocked(q.config);
    q.Lock();
    locked := IsLocked(q.config);
    q.Unlock();
    unlocked := IsLocked(q.config);
  }

  /** `Oid::from_str("ffffffff")`: eight digits, padded with zeros. */
  lemma ShortIdParses()
    ensures ParseOid("ffffffff").Some? && ParseOid("ffffffff").value == [15, 15, 15, 15, 15, 15, 15, 15] + seq(32, _ => 0)
  {
    assert HexValue('f') == Some(15);
    assert DecodeHex("ffffffff").Some? && DecodeHex("ffffffff").value == [15, 15, 15, 15, 15, 15, 15, 15];
  }

  /** `test_last_seen_reference_in_db`. */
  method LastSeenReferenceStored() returns (initially: Result<Option<Oid>>, stored: Result<Option<Oid>>, oid: Oid, locked: Result<bool>)
    ensures initially == Ok(None)
    ensures oid == [15, 15, 15, 15, 15, 15, 15, 15] + seq(32, _ => 0)
    ensures stored == Ok(Some(oid))
    ensures locked == Ok(false)
  {
    var q := new BuildQueue(5);
    q.Unlock();
    initially := LastSeenReference(q.config);
    ShortIdParses();
    oid := ParseOid("ffffffff").value;
    var before := q.config;
    q.SetLastSeenReference(oid);
    ReferenceRoundTrip(before, oid);
    EntriesIndependent(before, Text(OidText(oid)));
    stored := LastSeenReference(q.config);
    locked := IsLocked(q.config);
  }

  /** `test_broken_db_reference_breaks`. */
  method BrokenReference() returns (r: Result<Option<Oid>>)
    ensures r.Err?
  {
    var q := new BuildQueue(5);
    q.config := q.config[LastSeenIndexReference := Text("invalid")];
    assert HexValue("invalid"[0]).None?;
    r := LastSeenReference(q.config);
  }

  // get_new_crates: three releases of one crate in one index diff.

  const Diff := [Added("c", "1.0.0"), Added("c", "1.1.0"), Added("c", "1.2.0")]
  const Newest := Row(1, "c", "1.2.0", 0, 0, None)
  const Middle := Row(2, "c", "1.1.0", 0, 0, None)
  const Oldest := Row(3, "c", "1.0.0", 0, 0, None)

  function AllPriorityZero(k: nat): Result<i32> {
    Ok(0)
  }

  function AllUpserted(k: nat): bool {
    true
  }

  const Reversed := [Added("c", "1.2.0"), Added("c", "1.1.0"), Added("c", "1.0.0")]

  lemma DiffReversed()
    ensures Reverse(Diff) == Reversed
  {
  }

  lemma VersionsDiffer()
    ensures !Newest.HasKey("c", "1.1.0") && !Newest.HasKey("c", "1.0.0") && !Middle.HasKey("c", "1.0.0")
  {
    assert "1.2.0"[2] != "1.1.0"[2] && "1.2.0"[2] != "1.0.0"[2] && "1.1.0"[2] != "1.0.0"[2];
  }

  lemma IngestFirst(changes: seq<Change>)
    requires changes == Reversed
    ensures Ingest([], 1, changes[..1], None, AllPriorityZero, AllUpserted) == Progress([Newest], 2, 1, None)
  {
    assert changes[..0] == [];
    assert changes[0] == Added("c", "1.2.0");
    IngestAppends([], 1, changes, 0, "c", "1.2.0", None, AllPriorityZero, AllUpserted, Progress([], 1, 0, None));
  }

  lemma IngestSecond(changes: seq<Change>)
    requires changes == Reversed
    ensures Ingest([], 1, changes[..2], None, AllPriorityZero, AllUpserted) == Progress([Newest, Middle], 3, 2, None)
  {
    IngestFirst(changes);
    assert changes[1] == Added("c", "1.1.0");
    VersionsDiffer();
    IngestAppends([], 1, changes, 1, "c", "1.1.0", None, AllPriorityZero, AllUpserted, Progress([Newest], 2, 1, None));
  }

  lemma IngestThird(changes: seq<Change>)
    requires changes == Reversed
    ensures Ingest([], 1, changes[..3], None, AllPriorityZero, AllUpserted) == Progress([Newest, Middle, Oldest], 4, 3, None)
  {
    IngestSecond(changes);
    assert changes[2] == Added("c", "1.0.0");
    VersionsDiffer();
    IngestAppends([], 1, changes, 2, "c", "1.0.0", None, AllPriorityZero, AllUpserted, Progress([Newest, Middle], 3, 2, None));
  }

  /** Reversed, the newest release is added first and so gets the smallest id. */
  lemma NewestFirstIngest()
    ensures Ingest([], 1, Reverse(Diff), None, AllPriorityZero, AllUpserted) == Progress([Newest, Middle, Oldest], 4, 3, None)
  {
    DiffReversed();
    IngestThird(Reversed);
    assert Reversed[..3] == Reversed;
  }

  /**
    `get_new_crates` on a diff that adds three versions of one crate, oldest
    first: all three are queued, the newest is built first and the cursor
    moves to the diff's commit.
   */
  method NewestVersionBuiltFirst() returns (r: Result<nat>, first: Option<QueuedCrate>, cursor: Result<Option<Oid>>, oid: Oid)
    ensures r == Ok(3)
    ensures first.Some? && first.value.version == "1.2.0"
    ensures cursor == Ok(Some(oid))
  {
    var q := new BuildQueue(5);
    oid := seq(40, _ => 7);
    NewestFirstIngest();
    assert NextCrate([Newest, Middle, Oldest], 5) == Some(0);
    r := q.GetNewCrates(Ok(Batch(Diff, oid)), None, AllPriorityZero, AllUpserted, true);
    ReferenceRoundTrip(map[], oid);
    cursor := LastSeenReference(q.config);
    first := q.ProcessNextCrate(true);
  }

  // build_next_queue_package

  function Broken(k: nat): Result<bool> {
    Err(ToolchainUpdateFailed)
  }

  function UpdatedOnRetry(k: nat): Result<bool> {
    if k == 0 then Err(ToolchainUpdateFailed) else Ok(true)
  }

  function Purged(k: nat): Result<()> {
    Ok(())
  }

  /** A toolchain that cannot be updated locks the queue and counts a failed attempt. */
  method ToolchainFailureLocks() returns (processed: bool, request: Option<BuildRequest>, locked: Result<bool>, row: Row)
    ensures processed && request.None?
    ensures locked == Ok(true)
    ensures row.attempt == 1
  {
    var q := new BuildQueue(5);
    AddRow(q, Row(1, "foo", "1.0.0", 0, 0, None));
    assert NextCrate(q.rows, 5) == Some(0);
    MaintenanceFails(Broken, Purged);
    processed, request := q.BuildNextQueuePackage(Broken, Purged, Ok(()));
    locked := IsLocked(q.config);
    row := q.rows[0];
  }

  /**
    A toolchain update that succeeds on its second call, followed by a cache
    purge, lets the build of a crate from another registry start.
   */
  method BuildAfterRetriedUpdate() returns (processed: bool, request: Option<BuildRequest>, locked: Result<bool>, left: nat)
    ensures processed
    ensures request == Some(BuildRequest("foo", "1.0.0", Registry("https://example.com/index")))
    ensures locked == Ok(false)
    ensures left == 0
  {
    var q := new BuildQueue(5);
    q.AddCrate("foo", "1.0.0", 0, Some("https://example.com/index"));
    assert q.rows == [Row(1, "foo", "1.0.0", 0, 0, Some("https://example.com/index"))];
    assert NextCrate(q.rows, 5) == Some(0);
    assert RetryCalls(UpdatedOnRetry, 3, 0) == 2;
    assert RetryCalls(Purged, 3, 0) == 1;
    processed, request := q.BuildNextQueuePackage(UpdatedOnRetry, Purged, Ok(()));
    locked := IsLocked(q.config);
    left := PendingCount(q.rows, q.maxAttempts);
  }
}
