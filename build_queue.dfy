/**
  `BuildQueue`: the queue table, the config entries and the two build metrics
  as the state of one object, and the operations that change them.
 */
module BuildQueues {
  import opened Common
  import opened QueueTable
  import opened Config
  import opened Backoff
  import opened Changes

  /** `PackageKind`: where the builder fetches a crate from. */
  datatype PackageKind = CratesIo | Registry(url: string)

  /** A row without a registry comes from crates.io, any other from its registry. */
  function KindOf(registry: Option<string>): (k: PackageKind)
    ensures k.CratesIo? <==> registry.None?
    ensures k.Registry? ==> k.url == registry.value
  {
    match registry
    case None => CratesIo
    case Some(url) => Registry(url)
  }

  /** What the index diff offers: its changes, oldest first, and the commit they lead to. */
  datatype Batch = Batch(changes: seq<Change>, oid: Oid)

  /** The arguments `build_package` is called with. */
  datatype BuildRequest = BuildRequest(name: string, version: string, kind: PackageKind)

  /**
    The environment check the build callback runs first: `retry(update_toolchain, 3)`
    and, when that reports a changed toolchain, `retry(purge_caches, 3)`.
   */
  function Maintenance(toolchain: nat -> Result<bool>, purge: nat -> Result<()>): (r: Result<()>)
    ensures RetryResult(toolchain, 3).Err? ==> r == Err(RetryResult(toolchain, 3).error)
    ensures RetryResult(toolchain, 3) == Ok(false) ==> r == Ok(())
    ensures RetryResult(toolchain, 3) == Ok(true) ==>
      r == if RetryResult(purge, 3).Ok? then Ok(()) else Err(RetryResult(purge, 3).error)
  {
    match RetryResult(toolchain, 3)
    case Err(e) => Err(e)
    case Ok(changed) =>
      if !changed then Ok(())
      else match RetryResult(purge, 3)
        case Err(e) => Err(e)
        case Ok(_) => Ok(())
  }

  /**
    The environment check fails exactly when all four toolchain updates fail, or
    the toolchain changed and all four cache purges fail.
   */
  lemma MaintenanceFails(toolchain: nat -> Result<bool>, purge: nat -> Result<()>)
    ensures Maintenance(toolchain, purge).Err? <==>
      || (forall k :: 0 <= k <= 3 ==> toolchain(k).Err?)
      || (RetryResult(toolchain, 3) == Ok(true) && forall k :: 0 <= k <= 3 ==> purge(k).Err?)
  {
    RetryFailsIffAllFail(toolchain, 3);
    RetryFailsIffAllFail(purge, 3);
  }

  /**
    Runs the environment check. Returns its outcome and how many times each
    collaborator was called: `purge_caches` is called only after an update that
    changed the toolchain.
   */
  method RunMaintenance(toolchain: nat -> Result<bool>, purge: nat -> Result<()>)
    returns (r: Result<()>, toolchainCalls: nat, purgeCalls: nat)
    ensures r == Maintenance(toolchain, purge)
    ensures 1 <= toolchainCalls <= 4 && toolchainCalls == RetryCalls(toolchain, 3, 0)
    ensures purgeCalls == if RetryResult(toolchain, 3) == Ok(true) then RetryCalls(purge, 3, 0) else 0
  {
    var updated: Result<bool>, purged: Result<()>;
    ghost var sleeps: seq<nat>;
    updated, toolchainCalls, sleeps := Retry(toolchain, 3);
    purgeCalls := 0;
    if updated.Err? {
      r := Err(updated.error);
    } else if !updated.value {
      r := Ok(());
    } else {
      purged, purgeCalls, sleeps := Retry(purge, 3);
      r := if purged.Ok? then Ok(()) else Err(purged.error);
    }
  }

  class BuildQueue {
    /** `config.build_attempts`. */
    const maxAttempts: u16
    /** The `queue` table and the next value of its id sequence. */
    var rows: seq<Row>
    var nextId: nat
    /** The `config` table. */
    var config: ConfigMap
    /** `metrics.total_builds` and `metrics.failed_builds`. */
    var totalBuilds: nat
    var failedBuilds: nat

    ghost predicate Valid()
      reads this
    {
      WellFormed(rows, nextId)
    }

    /** A queue over an empty database. */
    constructor (maxAttempts: u16)
      ensures Valid()
      ensures this.maxAttempts == maxAttempts
      ensures rows == [] && nextId == 1 && config == map[] && totalBuilds == 0 && failedBuilds == 0
    {
      this.maxAttempts := maxAttempts;
      rows := [];
      nextId := 1;
      config := map[];
      totalBuilds := 0;
      failedBuilds := 0;
    }

    /** `add_crate`: insert the release, or reset its priority, registry and attempt count. */
    method AddCrate(name: string, version: string, priority: i32, registry: Option<string>)
      requires Valid()
      modifies this`rows, this`nextId
      ensures Valid()
      ensures rows == Upsert(old(rows), old(nextId), name, version, priority, registry)
      ensures nextId == old(nextId) + 1
    {
      rows := Upsert(rows, nextId, name, version, priority, registry);
      nextId := nextId + 1;
    }

    /** What follows the build callback of `process_next_crate` for row i. */
    method Finish(i: nat, succeeded: bool)
      requires Valid() && i < |rows|
      modifies this`rows, this`totalBuilds, this`failedBuilds
      ensures Valid()
      ensures rows == Settle(old(rows), i, succeeded)
      ensures totalBuilds == old(totalBuilds) + 1
      ensures failedBuilds == old(failedBuilds) + (if RetiresRow(old(rows)[i], succeeded, maxAttempts) then 1 else 0)
    {
      SettleKeepsWellFormed(rows, nextId, i, succeeded);
      totalBuilds := totalBuilds + 1;
      if succeeded {
        rows := rows[..i] + rows[i + 1..];
      } else {
        var attempt := rows[i].attempt + 1;
        rows := rows[i := rows[i].(attempt := attempt)];
        if attempt >= maxAttempts {
          failedBuilds := failedBuilds + 1;
        }
      }
    }

    /**
      `process_next_crate` with a callback that replies `succeeds`. Returns the
      crate the callback was given, `None` when it was not called.
     */
    method ProcessNextCrate(succeeds: bool) returns (given: Option<QueuedCrate>)
      requires Valid()
      modifies this`rows, this`totalBuilds, this`failedBuilds
      ensures Valid()
      ensures NextCrate(old(rows), maxAttempts).None? ==>
        && given.None?
        && rows == old(rows) && totalBuilds == old(totalBuilds) && failedBuilds == old(failedBuilds)
      ensures NextCrate(old(rows), maxAttempts).Some? ==>
        var i := NextCrate(old(rows), maxAttempts).value;
        && given == Some(old(rows)[i].Crate())
        && rows == Settle(old(rows), i, succeeds)
        && totalBuilds == old(totalBuilds) + 1
        && failedBuilds == old(failedBuilds) + (if RetiresRow(old(rows)[i], succeeds, maxAttempts) then 1 else 0)
    {
      var next := NextCrate(rows, maxAttempts);
      if next.None? {
        return None;
      }
      given := Some(rows[next.value].Crate());
      Finish(next.value, succeeds);
    }

    /** `lock`: pause the queue. */
    method Lock()
      modifies this`config
      ensures config == old(config)[QueueLocked := Bool(true)]
    {
      config := config[QueueLocked := Bool(true)];
    }

    /** `unlock`: resume the queue. */
    method Unlock()
      modifies this`config
      ensures config == old(config)[QueueLocked := Bool(false)]
    {
      config := config[QueueLocked := Bool(false)];
    }

    /** `set_last_seen_reference`: store the cursor as the text of the object id. */
    method SetLastSeenReference(oid: Oid)
      modifies this`config
      ensures config == old(config)[LastSeenIndexReference := Text(OidText(oid))]
    {
      config := config[LastSeenIndexReference := Text(OidText(oid))];
    }

    /**
      The loop of `get_new_crates` over the changes in processing order.
      `priorities(k)` and `upsertOk(k)` are the replies of `get_crate_priority`
      and `add_crate` for change k. Returns the lookup error that stopped the
      loop, if any, and `crates_added`.
     */
    method AddChanges(changes: seq<Change>, registry: Option<string>,
                      priorities: nat -> Result<i32>, upsertOk: nat -> bool)
      returns (failure: Option<Error>, added: nat)
      requires Valid()
      modifies this`rows, this`nextId
      ensures Valid()
      ensures Ingest(old(rows), old(nextId), changes, registry, priorities, upsertOk) ==
        Progress(rows, nextId, added, failure)
    {
      added := 0;
      for k := 0 to |changes|
        invariant Valid()
        invariant Ingest(old(rows), old(nextId), changes[..k], registry, priorities, upsertOk) == Progress(rows, nextId, added, None)
      {
        IngestOneMore(old(rows), old(nextId), changes, k, registry, priorities, upsertOk);
        failure, added := ApplyChange(changes[k], k, registry, priorities, upsertOk, added);
        if failure.Some? {
          IngestAfterStop(old(rows), old(nextId), changes, k + 1, registry, priorities, upsertOk);
          return;
        }
      }
      assert changes[..|changes|] == changes;
      return None, added;
    }

    /** One pass of the loop over the changes: change number k, with `added` crates added so far. */
    method ApplyChange(change: Change, k: nat, registry: Option<string>,
                       priorities: nat -> Result<i32>, upsertOk: nat -> bool, added: nat)
      returns (failure: Option<Error>, added': nat)
      requires Valid()
      modifies this`rows, this`nextId
      ensures Valid()
      ensures Step(Progress(old(rows), old(nextId), added, None), change, k, registry, priorities, upsertOk) ==
        Progress(rows, nextId, added', failure)
    {
      failure, added' := None, added;
      if change.Added? {
        var priority := priorities(k);
        if priority.Err? {
          return Some(priority.error), added;
        }
        if upsertOk(k) {
          AddCrate(change.name, change.version, priority.value, registry);
          added' := added + 1;
        }
      }
    }

    /**
      `get_new_crates`. `peek` is what `index.diff()` and `peek_changes()` return;
      the changes are processed newest first, with the replies `priorities` and
      `upsertOk` as for `AddChanges`; `bookmarkOk` says whether
      `diff.set_last_seen_reference` succeeded.
     */
    method GetNewCrates(peek: Result<Batch>, registry: Option<string>,
                        priorities: nat -> Result<i32>, upsertOk: nat -> bool, bookmarkOk: bool)
      returns (r: Result<nat>)
      requires Valid()
      modifies this`rows, this`nextId, this`config
      ensures Valid()
      ensures peek.Err? ==> r == Err(peek.error) && rows == old(rows) && nextId == old(nextId) && config == old(config)
      ensures peek.Ok? ==>
        var p := Ingest(old(rows), old(nextId), Reverse(peek.value.changes), registry, priorities, upsertOk);
        && rows == p.rows && nextId == p.nextId
        && (p.failure.Some? ==> r == Err(p.failure.value) && config == old(config))
        && (p.failure.None? ==>
              && config == old(config)[LastSeenIndexReference := Text(OidText(peek.value.oid))]
              && r == if bookmarkOk then Ok(p.added) else Err(BookmarkWriteFailed))
    {
      if peek.Err? {
        return Err(peek.error);
      }
      var failure, added := AddChanges(Reverse(peek.value.changes), registry, priorities, upsertOk);
      if failure.Some? {
        return Err(failure.value);
      }
      SetLastSeenReference(peek.value.oid);
      if !bookmarkOk {
        return Err(BookmarkWriteFailed);
      }
      return Ok(added);
    }

    /**
      `build_next_queue_package`. `toolchain(k)` and `purge(k)` are the replies of
      call k + 1 to `update_toolchain` and `purge_caches`, `build` that of
      `build_package`. Returns whether a crate was taken from the queue, and the
      build that was started, if any.
     */
    method BuildNextQueuePackage(toolchain: nat -> Result<bool>, purge: nat -> Result<()>, build: Result<()>)
      returns (processed: bool, request: Option<BuildRequest>)
      requires Valid()
      modifies this`rows, this`totalBuilds, this`failedBuilds, this`config
      ensures Valid()
      ensures processed == NextCrate(old(rows), maxAttempts).Some?
      ensures NextCrate(old(rows), maxAttempts).None? ==>
        && request.None? && rows == old(rows) && config == old(config)
        && totalBuilds == old(totalBuilds) && failedBuilds == old(failedBuilds)
      ensures NextCrate(old(rows), maxAttempts).Some? ==>
        var i := NextCrate(old(rows), maxAttempts).value;
        var row := old(rows)[i];
        var ready := Maintenance(toolchain, purge).Ok?;
        && request == (if ready then Some(BuildRequest(row.name, row.version, KindOf(row.registry))) else None)
        && config == (if ready then old(config) else old(config)[QueueLocked := Bool(true)])
        && rows == Settle(old(rows), i, ready && build.Ok?)
        && totalBuilds == old(totalBuilds) + 1
        && failedBuilds == old(failedBuilds) + (if RetiresRow(row, ready && build.Ok?, maxAttempts) then 1 else 0)
    {
      var next := NextCrate(rows, maxAttempts);
      if next.None? {
        return false, None;
      }
      processed := true;
      var krate := rows[next.value].Crate();
      var kind := KindOf(krate.registry);
      var maintained, _, _ := RunMaintenance(toolchain, purge);
      var ready := maintained.Ok?;
      var succeeded;
      if ready {
        request := Some(BuildRequest(krate.name, krate.version, kind));
        succeeded := build.Ok?;
      } else {
        request := None;
        Lock();
        succeeded := false;
      }
      Finish(next.value, succeeded);
    }
  }
}
