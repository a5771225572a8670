/**
  `get_new_crates` as a fold: the changes of one index diff, taken newest first,
  applied one by one to the queue table. Only `Added` changes touch the queue;
  a failing priority lookup stops the batch; a failing upsert is reported and
  skipped.
 */
module Changes {
  import opened Common
  import opened QueueTable

  /** One entry of the crates index diff. */
  datatype Change =
    | Added(name: string, version: string)
    | Yanked(name: string, version: string)
    | Deleted(name: string)

  /** `Vec::reverse`. */
  function Reverse<T>(s: seq<T>): (r: seq<T>)
    ensures |r| == |s|
  {
    seq(|s|, i requires 0 <= i < |s| => s[|s| - 1 - i])
  }

  /** A reversed sequence holds the same elements. */
  lemma {:induction false} ReversePermutes<T>(s: seq<T>)
    ensures multiset(Reverse(s)) == multiset(s)
  {
    if s != [] {
      var n := |s| - 1;
      assert Reverse(s) == [s[n]] + Reverse(s[..n]);
      ReversePermutes(s[..n]);
      assert s == s[..n] + [s[n]];
    }
  }

  /** Reversing twice gives the sequence back. */
  lemma ReverseTwice<T>(s: seq<T>)
    ensures Reverse(Reverse(s)) == s
  {
  }

  /** The ingest so far: the table, the next id, `crates_added`, and the error that stopped it, if any. */
  datatype Progress = Progress(rows: seq<Row>, nextId: nat, added: nat, failure: Option<Error>)

  /**
    Processing change number k (counted in processing order). `priorities(k)` is
    the reply of `get_crate_priority` for it and `upsertOk(k)` whether its
    `add_crate` statement succeeded.
   */
  function Step(p: Progress, change: Change, k: nat, registry: Option<string>,
                priorities: nat -> Result<i32>, upsertOk: nat -> bool): (r: Progress)
    requires WellFormed(p.rows, p.nextId)
    ensures WellFormed(r.rows, r.nextId)
  {
    if p.failure.Some? then p
    else match change
      case Added(name, version) =>
        (match priorities(k)
         case Err(e) => p.(failure := Some(e))
         case Ok(priority) =>
           if upsertOk(k) then
             Progress(Upsert(p.rows, p.nextId, name, version, priority, registry), p.nextId + 1, p.added + 1, None)
           else p)
      case Yanked(_, _) => p  // marks the release yanked in `releases`, outside the queue table
      case Deleted(_) => p    // `delete_crate` purges the crate's data, outside the queue table
  }

  /** The ingest after the changes of `changes`, in that order. */
  function Ingest(rows: seq<Row>, nextId: nat, changes: seq<Change>, registry: Option<string>,
                  priorities: nat -> Result<i32>, upsertOk: nat -> bool): (p: Progress)
    requires WellFormed(rows, nextId)
    ensures WellFormed(p.rows, p.nextId)
    decreases |changes|
  {
    if changes == [] then Progress(rows, nextId, 0, None)
    else
      var k := |changes| - 1;
      Step(Ingest(rows, nextId, changes[..k], registry, priorities, upsertOk), changes[k], k, registry, priorities, upsertOk)
  }

  /** Change k is an addition whose priority lookup failed. */
  predicate LookupFails(changes: seq<Change>, priorities: nat -> Result<i32>, k: nat) {
    k < |changes| && changes[k].Added? && priorities(k).Err?
  }

  /** A step stops the batch exactly when the batch is still running and its lookup fails. */
  lemma StepFailure(p: Progress, change: Change, k: nat, registry: Option<string>,
                    priorities: nat -> Result<i32>, upsertOk: nat -> bool)
    requires WellFormed(p.rows, p.nextId)
    ensures Step(p, change, k, registry, priorities, upsertOk).failure ==
      if p.failure.Some? then p.failure
      else if change.Added? && priorities(k).Err? then Some(priorities(k).error)
      else None
  {
  }

  /** How the last change of a batch decides whether and why the batch stopped. */
  lemma IngestFailureLast(rows: seq<Row>, nextId: nat, changes: seq<Change>, registry: Option<string>,
                          priorities: nat -> Result<i32>, upsertOk: nat -> bool)
    requires WellFormed(rows, nextId) && changes != []
    ensures var n := |changes| - 1;
      var before := Ingest(rows, nextId, changes[..n], registry, priorities, upsertOk).failure;
      Ingest(rows, nextId, changes, registry, priorities, upsertOk).failure ==
        if before.Some? then before
        else if LookupFails(changes, priorities, n) then Some(priorities(n).error)
        else None
  {
    var n := |changes| - 1;
    var q := Ingest(rows, nextId, changes[..n], registry, priorities, upsertOk);
    assert Ingest(rows, nextId, changes, registry, priorities, upsertOk) == Step(q, changes[n], n, registry, priorities, upsertOk);
    StepFailure(q, changes[n], n, registry, priorities, upsertOk);
  }

  /** A prefix has the same failing lookups as the whole, below its length. */
  lemma LookupFailsPrefix(changes: seq<Change>, priorities: nat -> Result<i32>, n: nat, j: nat)
    requires j < n <= |changes|
    ensures LookupFails(changes[..n], priorities, j) <==> LookupFails(changes, priorities, j)
  {
    assert changes[..n][j] == changes[j];
  }

  /** The batch stops exactly when some addition's priority lookup fails. */
  lemma {:induction false} IngestStops(rows: seq<Row>, nextId: nat, changes: seq<Change>, registry: Option<string>,
                                        priorities: nat -> Result<i32>, upsertOk: nat -> bool)
    requires WellFormed(rows, nextId)
    ensures var p := Ingest(rows, nextId, changes, registry, priorities, upsertOk);
      p.failure.Some? <==> exists k: nat :: LookupFails(changes, priorities, k)
    decreases |changes|
  {
    if changes != [] {
      var n := |changes| - 1;
      var init := changes[..n];
      IngestStops(rows, nextId, init, registry, priorities, upsertOk);
      IngestFailureLast(rows, nextId, changes, registry, priorities, upsertOk);
      if exists k :: LookupFails(init, priorities, k) {
        var k: nat :| LookupFails(init, priorities, k);
        LookupFailsPrefix(changes, priorities, n, k);
      }
      if exists k :: LookupFails(changes, priorities, k) {
        var k: nat :| LookupFails(changes, priorities, k);
        if k < n {
          LookupFailsPrefix(changes, priorities, n, k);
        }
      }
    }
  }

  /** A stopped batch reports the error of the first addition whose priority lookup failed. */
  lemma {:induction false} IngestStopsAtFirst(rows: seq<Row>, nextId: nat, changes: seq<Change>, registry: Option<string>,
                                               priorities: nat -> Result<i32>, upsertOk: nat -> bool)
    requires WellFormed(rows, nextId)
    ensures var p := Ingest(rows, nextId, changes, registry, priorities, upsertOk);
      p.failure.Some? ==>
        exists k: nat :: (&& LookupFails(changes, priorities, k)
                     && priorities(k).error == p.failure.value
                     && forall j: nat :: j < k ==> !LookupFails(changes, priorities, j))
    decreases |changes|
  {
    if changes != [] {
      var n := |changes| - 1;
      var init := changes[..n];
      IngestStopsAtFirst(rows, nextId, init, registry, priorities, upsertOk);
      IngestFailureLast(rows, nextId, changes, registry, priorities, upsertOk);
      var before := Ingest(rows, nextId, init, registry, priorities, upsertOk).failure;
      var after := Ingest(rows, nextId, changes, registry, priorities, upsertOk).failure;
      if before.Some? {
        var k: nat :| LookupFails(init, priorities, k) && priorities(k).error == before.value
          && forall j: nat :: j < k ==> !LookupFails(init, priorities, j);
        LookupFailsPrefix(changes, priorities, n, k);
        forall j: nat | j < k ensures !LookupFails(changes, priorities, j) {
          LookupFailsPrefix(changes, priorities, n, j);
        }
        assert LookupFails(changes, priorities, k) && priorities(k).error == after.value;
      } else if after.Some? {
        IngestStops(rows, nextId, init, registry, priorities, upsertOk);
        forall j: nat | j < n ensures !LookupFails(changes, priorities, j) {
          LookupFailsPrefix(changes, priorities, n, j);
        }
        assert LookupFails(changes, priorities, n) && priorities(n).error == after.value;
      }
    }
  }

  /** The positions of the additions whose upsert succeeded. */
  function AcceptedAdds(changes: seq<Change>, upsertOk: nat -> bool): set<nat> {
    set k: nat | k < |changes| && changes[k].Added? && upsertOk(k)
  }

  /** The last change adds one position to the accepted additions if it is one. */
  lemma AcceptedAddsLast(changes: seq<Change>, upsertOk: nat -> bool)
    requires changes != []
    ensures var n := |changes| - 1;
      |AcceptedAdds(changes, upsertOk)| ==
        |AcceptedAdds(changes[..n], upsertOk)| + (if changes[n].Added? && upsertOk(n) then 1 else 0)
  {
    var n := |changes| - 1;
    var init := changes[..n];
    var before := AcceptedAdds(init, upsertOk);
    var after := AcceptedAdds(changes, upsertOk);
    var last: set<nat> := if changes[n].Added? && upsertOk(n) then {n} else {};
    forall k: nat ensures k in after <==> k in before + last {
      if k < n {
        assert init[k] == changes[k];
      }
    }
    assert after == before + last;
    assert n !in before;
  }

  /** A batch that runs to the end returns the number of additions whose upsert succeeded. */
  lemma {:induction false} IngestCountsAdds(rows: seq<Row>, nextId: nat, changes: seq<Change>, registry: Option<string>,
                                             priorities: nat -> Result<i32>, upsertOk: nat -> bool)
    requires WellFormed(rows, nextId)
    ensures var p := Ingest(rows, nextId, changes, registry, priorities, upsertOk);
      p.failure.None? ==> p.added == |AcceptedAdds(changes, upsertOk)|
    decreases |changes|
  {
    if changes != [] {
      var n := |changes| - 1;
      IngestCountsAdds(rows, nextId, changes[..n], registry, priorities, upsertOk);
      AcceptedAddsLast(changes, upsertOk);
    }
  }

  /** Releases named by an accepted addition. */
  predicate AddedRelease(changes: seq<Change>, upsertOk: nat -> bool, k: nat, name: string, version: string) {
    k < |changes| && changes[k] == Added(name, version) && upsertOk(k)
  }

  /**
    Only accepted additions touch the queue: a row whose release no accepted
    addition names is in the table after the batch exactly when it was before.
   */
  lemma {:induction false} IngestTouchesOnlyAdded(rows: seq<Row>, nextId: nat, changes: seq<Change>, registry: Option<string>,
                                                   priorities: nat -> Result<i32>, upsertOk: nat -> bool, row: Row)
    requires WellFormed(rows, nextId)
    requires forall k :: !AddedRelease(changes, upsertOk, k, row.name, row.version)
    ensures row in Ingest(rows, nextId, changes, registry, priorities, upsertOk).rows <==> row in rows
    decreases |changes|
  {
    if changes != [] {
      var n := |changes| - 1;
      var init := changes[..n];
      forall k ensures !AddedRelease(init, upsertOk, k, row.name, row.version) {
        assert !AddedRelease(changes, upsertOk, k, row.name, row.version);
      }
      IngestTouchesOnlyAdded(rows, nextId, init, registry, priorities, upsertOk, row);
      assert !AddedRelease(changes, upsertOk, n, row.name, row.version);
    }
  }

  /** After a batch that ran to the end, every accepted addition has its row in the queue. */
  lemma IngestEnqueuesAdded(rows: seq<Row>, nextId: nat, changes: seq<Change>, registry: Option<string>,
                            priorities: nat -> Result<i32>, upsertOk: nat -> bool, k: nat)
    requires WellFormed(rows, nextId)
    requires k < |changes| && changes[k].Added? && upsertOk(k)
    ensures var p := Ingest(rows, nextId, changes, registry, priorities, upsertOk);
      p.failure.None? ==> Lookup(p.rows, changes[k].name, changes[k].version).Some?
  {
    var p := Ingest(rows, nextId, changes, registry, priorities, upsertOk);
    if p.failure.None? {
      var name, version := changes[k].name, changes[k].version;
      var before := Ingest(rows, nextId, changes[..k], registry, priorities, upsertOk);
      IngestRanThrough(rows, nextId, changes, k, registry, priorities, upsertOk);
      IngestRanThrough(rows, nextId, changes, k + 1, registry, priorities, upsertOk);
      IngestOneMore(rows, nextId, changes, k, registry, priorities, upsertOk);
      StepFailure(before, changes[k], k, registry, priorities, upsertOk);
      var after := Ingest(rows, nextId, changes[..k + 1], registry, priorities, upsertOk);
      assert after.rows == Upsert(before.rows, before.nextId, name, version, priorities(k).value, registry);
      var id := after.rows[Lookup(after.rows, name, version).value].id;
      IngestKeepsId(rows, nextId, changes, k + 1, |changes|, registry, priorities, upsertOk, name, version, id);
      IngestWhole(rows, nextId, changes, registry, priorities, upsertOk);
    }
  }

  /** Once the batch has stopped, the remaining changes are not looked at. */
  lemma IngestAfterStop(rows: seq<Row>, nextId: nat, changes: seq<Change>, n: nat, registry: Option<string>,
                        priorities: nat -> Result<i32>, upsertOk: nat -> bool)
    requires WellFormed(rows, nextId)
    requires n <= |changes|
    requires Ingest(rows, nextId, changes[..n], registry, priorities, upsertOk).failure.Some?
    ensures Ingest(rows, nextId, changes, registry, priorities, upsertOk) ==
      Ingest(rows, nextId, changes[..n], registry, priorities, upsertOk)
  {
    IngestStaysStopped(rows, nextId, changes, n, |changes|, registry, priorities, upsertOk);
    IngestWhole(rows, nextId, changes, registry, priorities, upsertOk);
  }

  /** A stopped prefix is left as it is by every later change. */
  lemma {:induction false} IngestStaysStopped(rows: seq<Row>, nextId: nat, changes: seq<Change>, n: nat, b: nat,
                                               registry: Option<string>, priorities: nat -> Result<i32>, upsertOk: nat -> bool)
    requires WellFormed(rows, nextId)
    requires n <= b <= |changes|
    requires Ingest(rows, nextId, changes[..n], registry, priorities, upsertOk).failure.Some?
    ensures Ingest(rows, nextId, changes[..b], registry, priorities, upsertOk) ==
      Ingest(rows, nextId, changes[..n], registry, priorities, upsertOk)
    decreases b
  {
    if n < b {
      IngestStaysStopped(rows, nextId, changes, n, b - 1, registry, priorities, upsertOk);
      IngestOneMore(rows, nextId, changes, b - 1, registry, priorities, upsertOk);
    }
  }

  /** An accepted addition of a release not yet queued appends its row with the next id. */
  lemma StepAppends(p: Progress, name: string, version: string, k: nat, registry: Option<string>,
                    priorities: nat -> Result<i32>, upsertOk: nat -> bool)
    requires WellFormed(p.rows, p.nextId) && p.failure.None?
    requires priorities(k).Ok? && upsertOk(k)
    requires forall i :: 0 <= i < |p.rows| ==> !p.rows[i].HasKey(name, version)
    ensures Step(p, Added(name, version), k, registry, priorities, upsertOk) ==
      Progress(p.rows + [Row(p.nextId, name, version, priorities(k).value, 0, registry)], p.nextId + 1, p.added + 1, None)
  {
    UpsertNew(p.rows, p.nextId, name, version, priorities(k).value, registry);
  }

  /** A running batch whose next change is an accepted addition of a new release appends that release's row. */
  lemma IngestAppends(rows: seq<Row>, nextId: nat, changes: seq<Change>, k: nat, name: string, version: string,
                      registry: Option<string>, priorities: nat -> Result<i32>, upsertOk: nat -> bool, before: Progress)
    requires WellFormed(rows, nextId)
    requires k < |changes| && changes[k] == Added(name, version) && priorities(k).Ok? && upsertOk(k)
    requires Ingest(rows, nextId, changes[..k], registry, priorities, upsertOk) == before && before.failure.None?
    requires forall i :: 0 <= i < |before.rows| ==> !before.rows[i].HasKey(name, version)
    ensures Ingest(rows, nextId, changes[..k + 1], registry, priorities, upsertOk) ==
      Progress(before.rows + [Row(before.nextId, name, version, priorities(k).value, 0, registry)],
               before.nextId + 1, before.added + 1, None)
  {
    IngestOneMore(rows, nextId, changes, k, registry, priorities, upsertOk);
    StepAppends(before, name, version, k, registry, priorities, upsertOk);
  }

  /** Ingesting one more change is one more step. */
  lemma IngestOneMore(rows: seq<Row>, nextId: nat, changes: seq<Change>, k: nat, registry: Option<string>,
                      priorities: nat -> Result<i32>, upsertOk: nat -> bool)
    requires WellFormed(rows, nextId)
    requires k < |changes|
    ensures Ingest(rows, nextId, changes[..k + 1], registry, priorities, upsertOk) ==
      Step(Ingest(rows, nextId, changes[..k], registry, priorities, upsertOk), changes[k], k, registry, priorities, upsertOk)
  {
    assert changes[..k + 1][..k] == changes[..k];
  }

  /** The table holds (name, version) in a row with the given id. */
  predicate HoldsWithId(rows: seq<Row>, name: string, version: string, id: nat) {
    Lookup(rows, name, version).Some? && rows[Lookup(rows, name, version).value].id == id
  }

  /** A step takes one id from the sequence when it upserts, none otherwise. */
  lemma StepNextId(p: Progress, change: Change, k: nat, registry: Option<string>,
                   priorities: nat -> Result<i32>, upsertOk: nat -> bool)
    requires WellFormed(p.rows, p.nextId)
    ensures Step(p, change, k, registry, priorities, upsertOk).nextId ==
      p.nextId + (if p.failure.None? && change.Added? && priorities(k).Ok? && upsertOk(k) then 1 else 0)
  {
  }

  /** The id sequence never goes back while a batch is ingested. */
  lemma {:induction false} IngestNextIdGrows(rows: seq<Row>, nextId: nat, changes: seq<Change>, a: nat, b: nat,
                                              registry: Option<string>, priorities: nat -> Result<i32>, upsertOk: nat -> bool)
    requires WellFormed(rows, nextId)
    requires a <= b <= |changes|
    ensures Ingest(rows, nextId, changes[..a], registry, priorities, upsertOk).nextId <=
      Ingest(rows, nextId, changes[..b], registry, priorities, upsertOk).nextId
    decreases b
  {
    if a < b {
      IngestNextIdGrows(rows, nextId, changes, a, b - 1, registry, priorities, upsertOk);
      IngestOneMore(rows, nextId, changes, b - 1, registry, priorities, upsertOk);
      var before := Ingest(rows, nextId, changes[..b - 1], registry, priorities, upsertOk);
      StepNextId(before, changes[b - 1], b - 1, registry, priorities, upsertOk);
    }
  }

  /** A queued release keeps its id through the rest of the batch. */
  lemma {:induction false} IngestKeepsId(rows: seq<Row>, nextId: nat, changes: seq<Change>, a: nat, b: nat,
                                          registry: Option<string>, priorities: nat -> Result<i32>, upsertOk: nat -> bool,
                                          name: string, version: string, id: nat)
    requires WellFormed(rows, nextId)
    requires a <= b <= |changes|
    requires HoldsWithId(Ingest(rows, nextId, changes[..a], registry, priorities, upsertOk).rows, name, version, id)
    ensures HoldsWithId(Ingest(rows, nextId, changes[..b], registry, priorities, upsertOk).rows, name, version, id)
    decreases b
  {
    if a < b {
      IngestKeepsId(rows, nextId, changes, a, b - 1, registry, priorities, upsertOk, name, version, id);
      IngestOneMore(rows, nextId, changes, b - 1, registry, priorities, upsertOk);
      var before := Ingest(rows, nextId, changes[..b - 1], registry, priorities, upsertOk);
      var change := changes[b - 1];
      if before.failure.None? && change.Added? && priorities(b - 1).Ok? && upsertOk(b - 1) {
        UpsertKeeps(before.rows, before.nextId, change.name, change.version, priorities(b - 1).value, registry, name, version);
      }
    }
  }

  /** A release not queued before the batch stays out of the table until an accepted addition names it. */
  lemma {:induction false} IngestKeepsAbsent(rows: seq<Row>, nextId: nat, changes: seq<Change>, a: nat,
                                              registry: Option<string>, priorities: nat -> Result<i32>, upsertOk: nat -> bool,
                                              name: string, version: string)
    requires WellFormed(rows, nextId)
    requires a <= |changes|
    requires Lookup(rows, name, version).None?
    requires forall k: nat :: k < a ==> !AddedRelease(changes, upsertOk, k, name, version)
    ensures Lookup(Ingest(rows, nextId, changes[..a], registry, priorities, upsertOk).rows, name, version).None?
  {
    if a > 0 {
      IngestKeepsAbsent(rows, nextId, changes, a - 1, registry, priorities, upsertOk, name, version);
      IngestOneMore(rows, nextId, changes, a - 1, registry, priorities, upsertOk);
      var before := Ingest(rows, nextId, changes[..a - 1], registry, priorities, upsertOk);
      var change := changes[a - 1];
      if before.failure.None? && change.Added? && priorities(a - 1).Ok? && upsertOk(a - 1) {
        assert !AddedRelease(changes, upsertOk, a - 1, name, version);
        UpsertKeepsAbsent(before.rows, before.nextId, change.name, change.version, priorities(a - 1).value, registry,
                          name, version);
      }
    } else {
      assert changes[..a] == [];
    }
  }

  /** A batch that ran to the end was running after every prefix of it. */
  lemma IngestRanThrough(rows: seq<Row>, nextId: nat, changes: seq<Change>, a: nat,
                         registry: Option<string>, priorities: nat -> Result<i32>, upsertOk: nat -> bool)
    requires WellFormed(rows, nextId)
    requires a <= |changes|
    ensures Ingest(rows, nextId, changes[..a], registry, priorities, upsertOk).failure.Some? ==>
      Ingest(rows, nextId, changes, registry, priorities, upsertOk).failure.Some?
  {
    if Ingest(rows, nextId, changes[..a], registry, priorities, upsertOk).failure.Some? {
      IngestAfterStop(rows, nextId, changes, a, registry, priorities, upsertOk);
    }
  }

  /**
    In a batch that ran to the end, the first accepted addition of a release not
    queued before takes the id the sequence offers at that point.
   */
  lemma IngestFirstAdd(rows: seq<Row>, nextId: nat, changes: seq<Change>, p: nat,
                       registry: Option<string>, priorities: nat -> Result<i32>, upsertOk: nat -> bool,
                       name: string, version: string)
    requires WellFormed(rows, nextId)
    requires AddedRelease(changes, upsertOk, p, name, version)
    requires Lookup(rows, name, version).None?
    requires forall k: nat :: k < p ==> !AddedRelease(changes, upsertOk, k, name, version)
    requires Ingest(rows, nextId, changes, registry, priorities, upsertOk).failure.None?
    ensures var before := Ingest(rows, nextId, changes[..p], registry, priorities, upsertOk);
      var after := Ingest(rows, nextId, changes[..p + 1], registry, priorities, upsertOk);
      HoldsWithId(after.rows, name, version, before.nextId) && after.nextId == before.nextId + 1
  {
    var before := Ingest(rows, nextId, changes[..p], registry, priorities, upsertOk);
    IngestKeepsAbsent(rows, nextId, changes, p, registry, priorities, upsertOk, name, version);
    IngestRanThrough(rows, nextId, changes, p, registry, priorities, upsertOk);
    IngestRanThrough(rows, nextId, changes, p + 1, registry, priorities, upsertOk);
    IngestOneMore(rows, nextId, changes, p, registry, priorities, upsertOk);
    StepFailure(before, changes[p], p, registry, priorities, upsertOk);
    IngestAppends(rows, nextId, changes, p, name, version, registry, priorities, upsertOk, before);
    var after := Ingest(rows, nextId, changes[..p + 1], registry, priorities, upsertOk);
    LookupUnique(after.rows, after.nextId, |before.rows|);
  }

  /** The batch is its own longest prefix. */
  lemma IngestWhole(rows: seq<Row>, nextId: nat, changes: seq<Change>,
                    registry: Option<string>, priorities: nat -> Result<i32>, upsertOk: nat -> bool)
    requires WellFormed(rows, nextId)
    ensures Ingest(rows, nextId, changes[..|changes|], registry, priorities, upsertOk) ==
      Ingest(rows, nextId, changes, registry, priorities, upsertOk)
  {
    assert changes[..|changes|] == changes;
  }

  /** ... and keeps that id to the end of the batch. */
  lemma IngestFirstId(rows: seq<Row>, nextId: nat, changes: seq<Change>, p: nat,
                      registry: Option<string>, priorities: nat -> Result<i32>, upsertOk: nat -> bool,
                      name: string, version: string)
    requires WellFormed(rows, nextId)
    requires AddedRelease(changes, upsertOk, p, name, version)
    requires Lookup(rows, name, version).None?
    requires forall k: nat :: k < p ==> !AddedRelease(changes, upsertOk, k, name, version)
    requires Ingest(rows, nextId, changes, registry, priorities, upsertOk).failure.None?
    ensures var id := Ingest(rows, nextId, changes[..p], registry, priorities, upsertOk).nextId;
      && HoldsWithId(Ingest(rows, nextId, changes, registry, priorities, upsertOk).rows, name, version, id)
      && Ingest(rows, nextId, changes[..p + 1], registry, priorities, upsertOk).nextId == id + 1
  {
    var id := Ingest(rows, nextId, changes[..p], registry, priorities, upsertOk).nextId;
    IngestFirstAdd(rows, nextId, changes, p, registry, priorities, upsertOk, name, version);
    IngestKeepsId(rows, nextId, changes, p + 1, |changes|, registry, priorities, upsertOk, name, version, id);
    IngestWhole(rows, nextId, changes, registry, priorities, upsertOk);
  }

  /**
    In a batch that ran to the end, releases new to the queue get ids in the
    order their first accepted additions are processed.
   */
  lemma IngestIdsInOrder(rows: seq<Row>, nextId: nat, changes: seq<Change>, p: nat, q: nat,
                         registry: Option<string>, priorities: nat -> Result<i32>, upsertOk: nat -> bool,
                         name1: string, version1: string, name2: string, version2: string, id1: nat, id2: nat)
    requires WellFormed(rows, nextId)
    requires p < q
    requires AddedRelease(changes, upsertOk, p, name1, version1) && AddedRelease(changes, upsertOk, q, name2, version2)
    requires Lookup(rows, name1, version1).None? && Lookup(rows, name2, version2).None?
    requires forall k: nat :: k < p ==> !AddedRelease(changes, upsertOk, k, name1, version1)
    requires forall k: nat :: k < q ==> !AddedRelease(changes, upsertOk, k, name2, version2)
    requires Ingest(rows, nextId, changes, registry, priorities, upsertOk).failure.None?
    requires id1 == Ingest(rows, nextId, changes[..p], registry, priorities, upsertOk).nextId
    requires id2 == Ingest(rows, nextId, changes[..q], registry, priorities, upsertOk).nextId
    ensures var r := Ingest(rows, nextId, changes, registry, priorities, upsertOk).rows;
      HoldsWithId(r, name1, version1, id1) && HoldsWithId(r, name2, version2, id2) && id1 < id2
  {
    IngestFirstId(rows, nextId, changes, p, registry, priorities, upsertOk, name1, version1);
    IngestFirstId(rows, nextId, changes, q, registry, priorities, upsertOk, name2, version2);
    IngestNextIdGrows(rows, nextId, changes, p + 1, q, registry, priorities, upsertOk);
  }

  /** An element found only at position j of s is found only at the mirrored position of its reversal. */
  lemma ReverseOnlyAt<T>(s: seq<T>, j: nat, x: T)
    requires j < |s| && s[j] == x
    requires forall k :: 0 <= k < |s| && s[k] == x ==> k == j
    ensures Reverse(s)[|s| - 1 - j] == x
    ensures forall k :: 0 <= k < |s| - 1 - j ==> Reverse(s)[k] != x
  {
  }

  /** The order of ids of two releases new to the queue, the ids left unnamed. */
  lemma IngestNewIdsInOrder(rows: seq<Row>, nextId: nat, changes: seq<Change>, p: nat, q: nat,
                            registry: Option<string>, priorities: nat -> Result<i32>, upsertOk: nat -> bool,
                            name1: string, version1: string, name2: string, version2: string)
    requires WellFormed(rows, nextId)
    requires p < q
    requires AddedRelease(changes, upsertOk, p, name1, version1) && AddedRelease(changes, upsertOk, q, name2, version2)
    requires Lookup(rows, name1, version1).None? && Lookup(rows, name2, version2).None?
    requires forall k: nat :: k < p ==> !AddedRelease(changes, upsertOk, k, name1, version1)
    requires forall k: nat :: k < q ==> !AddedRelease(changes, upsertOk, k, name2, version2)
    requires Ingest(rows, nextId, changes, registry, priorities, upsertOk).failure.None?
    ensures var r := Ingest(rows, nextId, changes, registry, priorities, upsertOk).rows;
      exists id1: nat, id2: nat ::
        && HoldsWithId(r, name1, version1, id1)
        && HoldsWithId(r, name2, version2, id2)
        && id1 < id2
  {
    var id1 := Ingest(rows, nextId, changes[..p], registry, priorities, upsertOk).nextId;
    var id2 := Ingest(rows, nextId, changes[..q], registry, priorities, upsertOk).nextId;
    IngestIdsInOrder(rows, nextId, changes, p, q, registry, priorities, upsertOk,
                     name1, version1, name2, version2, id1, id2);
  }

  /** An addition found only at position j of a diff is, processed newest first, accepted nowhere before its turn. */
  lemma ReverseFirstAdded(delivered: seq<Change>, j: nat, c: Change, upsertOk: nat -> bool)
    requires j < |delivered| && delivered[j] == c && c.Added?
    requires forall k :: 0 <= k < |delivered| && delivered[k] == c ==> k == j
    ensures upsertOk(|delivered| - 1 - j) ==> AddedRelease(Reverse(delivered), upsertOk, |delivered| - 1 - j, c.name, c.version)
    ensures forall k: nat :: k < |delivered| - 1 - j ==> !AddedRelease(Reverse(delivered), upsertOk, k, c.name, c.version)
  {
    ReverseOnlyAt(delivered, j, c);
  }

  /**
    `get_new_crates` processes a diff newest first: of two releases new to the
    queue, each named by one change of the diff and both accepted, the one
    delivered later gets the smaller id, so at equal priority it is built first.
   */
  lemma NewerDeliveredFirst(rows: seq<Row>, nextId: nat, delivered: seq<Change>, i: nat, j: nat,
                            registry: Option<string>, priorities: nat -> Result<i32>, upsertOk: nat -> bool,
                            older: Change, newer: Change)
    requires WellFormed(rows, nextId)
    requires i < j < |delivered|
    requires delivered[i] == older && delivered[j] == newer && older.Added? && newer.Added?
    requires forall k :: 0 <= k < |delivered| && delivered[k] == older ==> k == i
    requires forall k :: 0 <= k < |delivered| && delivered[k] == newer ==> k == j
    requires Lookup(rows, older.name, older.version).None? && Lookup(rows, newer.name, newer.version).None?
    requires upsertOk(|delivered| - 1 - i) && upsertOk(|delivered| - 1 - j)
    requires Ingest(rows, nextId, Reverse(delivered), registry, priorities, upsertOk).failure.None?
    ensures var r := Ingest(rows, nextId, Reverse(delivered), registry, priorities, upsertOk).rows;
      exists olderId: nat, newerId: nat ::
        && HoldsWithId(r, older.name, older.version, olderId)
        && HoldsWithId(r, newer.name, newer.version, newerId)
        && newerId < olderId
  {
    var changes := Reverse(delivered);
    var m := |delivered|;
    var p, q := m - 1 - j, m - 1 - i;
    ReverseFirstAdded(delivered, j, newer, upsertOk);
    ReverseFirstAdded(delivered, i, older, upsertOk);
    IngestNewIdsInOrder(rows, nextId, changes, p, q, registry, priorities, upsertOk,
                        newer.name, newer.version, older.name, older.version);
  }

  /**
    ... so that, when the two rows end with equal priority and attempt, the queue's
    order (`ORDER BY priority, attempt, id`) takes the newer release strictly first.
   */
  lemma NewerSelectedFirst(rows: seq<Row>, nextId: nat, delivered: seq<Change>, i: nat, j: nat,
                           registry: Option<string>, priorities: nat -> Result<i32>, upsertOk: nat -> bool,
                           older: Change, newer: Change)
    requires WellFormed(rows, nextId)
    requires i < j < |delivered|
    requires delivered[i] == older && delivered[j] == newer && older.Added? && newer.Added?
    requires forall k :: 0 <= k < |delivered| && delivered[k] == older ==> k == i
    requires forall k :: 0 <= k < |delivered| && delivered[k] == newer ==> k == j
    requires Lookup(rows, older.name, older.version).None? && Lookup(rows, newer.name, newer.version).None?
    requires upsertOk(|delivered| - 1 - i) && upsertOk(|delivered| - 1 - j)
    requires Ingest(rows, nextId, Reverse(delivered), registry, priorities, upsertOk).failure.None?
    ensures var r := Ingest(rows, nextId, Reverse(delivered), registry, priorities, upsertOk).rows;
      var o := Lookup(r, older.name, older.version);
      var n := Lookup(r, newer.name, newer.version);
      && o.Some? && n.Some?
      && (r[n.value].priority == r[o.value].priority && r[n.value].attempt == r[o.value].attempt ==>
            KeyLe(r[n.value], r[o.value]) && !KeyLe(r[o.value], r[n.value]))
  {
    NewerDeliveredFirst(rows, nextId, delivered, i, j, registry, priorities, upsertOk, older, newer);
    var r := Ingest(rows, nextId, Reverse(delivered), registry, priorities, upsertOk).rows;
    var o := Lookup(r, older.name, older.version).value;
    var n := Lookup(r, newer.name, newer.version).value;
    KeyLeOrders(r[n], r[o], r[o]);
  }
}
