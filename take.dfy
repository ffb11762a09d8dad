/**
 * take_snapshots_aurora: for each cluster matching PATTERN, create a manual
 * snapshot when the newest one the tool made is at least INTERVAL hours old.
 */
module TakeSnapshots {
  import opened Wrappers
  import opened Timestamps
  import opened Identifiers
  import opened Tags
  import opened Inventory
  import opened Filters
  import opened Requests
  import opened Passes
  import opened Backup

  /** The tags a new snapshot carries; CreatedOn repeats the stamp in its name. */
  function BackupTags(stamp: string): seq<Tag> {
    [CreatedByTool, Tag("CreatedOn", stamp), ShareAndCopyYes]
  }

  /** create_db_cluster_snapshot for a cluster, named with the pass's stamp. */
  function CreateRequest(cfg: Config, c: Cluster, stamp: string): Request {
    CreateSnapshot(cfg.region, NewSnapshotIdentifier(cfg.addName, c.identifier, stamp), c.identifier, BackupTags(stamp))
  }

  /** The loop body for one cluster, given the filtered snapshots `d` and the pass's `now`. */
  function TakeStep(cfg: Config, d: Dict, now: DateTime, ok: Oracle, c: Cluster): Effect
    requires Valid(now)
  {
    match RequiresBackup(cfg.backupInterval, c.identifier, d, now)
    case Err(id) => Effect([], 0, Some(UnparsableTimestamp(id)))
    case Ok(due) =>
      if due then
        var req := CreateRequest(cfg, c, FormatMinute(now));
        Effect([req], if ok(req) then 0 else 1, None)
      else Effect([], 0, None)
  }

  function TakeStepFor(cfg: Config, d: Dict, now: DateTime, ok: Oracle): Cluster -> Effect
    requires Valid(now)
  {
    c => TakeStep(cfg, d, now, ok, c)
  }

  function SnapshotFilter(cfg: Config, matches: Matcher, tagsOf: TagLookup): Filter {
    Filter(OwnSource, cfg.pattern, matches, tagsOf)
  }

  function TakeSpec(cfg: Config, matches: Matcher, tagsOf: TagLookup, clusters: seq<Cluster>,
                    snapshots: seq<RawSnapshot>, now: DateTime, ok: Oracle): Tally
    requires Valid(now)
  {
    match FilterSpec(SnapshotFilter(cfg, matches, tagsOf), snapshots)
    case Err(s) => Tally([], 0, Some(UnparsableArn(s.arn)))
    case Ok(d) => Run(TakeStepFor(cfg, d, now, ok), KeptClusters(cfg.pattern, matches, clusters))
  }

  /**
   * The loop body of lambda_handler for one cluster: the strptime error of
   * requires_backup escapes; otherwise a snapshot stamped with `now` is
   * created exactly when the cluster is due, and a create that raises adds
   * one to pending.
   */
  method TakeOne(cfg: Config, d: Dict, now: DateTime, ok: Oracle, c: Cluster) returns (eff: Effect)
    requires Valid(now)
    ensures eff == TakeStep(cfg, d, now, ok, c)
    ensures eff.abort.Some? <==> RequiresBackup(cfg.backupInterval, c.identifier, d, now).Err?
    ensures eff.calls == if Due(cfg, d, now, c) then [CreateRequest(cfg, c, FormatMinute(now))] else []
    ensures eff.pending == if CreateFailed(cfg, d, now, ok)(c) then 1 else 0
  {
    var stamp := FormatMinute(now);
    var due := RequiresBackup(cfg.backupInterval, c.identifier, d, now);
    if due.Err? {
      return Effect([], 0, Some(UnparsableTimestamp(due.error)));
    }
    if due.value {
      var id := NewSnapshotIdentifier(cfg.addName, c.identifier, stamp);
      var req := CreateSnapshot(cfg.region, id, c.identifier, BackupTags(stamp));
      eff := Effect([req], if ok(req) then 0 else 1, None);
    } else {
      eff := Effect([], 0, None);
    }
  }

  /** lambda_handler: the calls it attempts and how it ends. */
  method TakeSnapshots(cfg: Config, matches: Matcher, tagsOf: TagLookup, clusters: seq<Cluster>,
                       snapshots: seq<RawSnapshot>, now: DateTime, ok: Oracle)
    returns (calls: seq<Request>, outcome: Outcome)
    requires Valid(now)
    ensures calls == TakeSpec(cfg, matches, tagsOf, clusters, snapshots, now, ok).calls
    ensures outcome == Conclude(TakeSpec(cfg, matches, tagsOf, clusters, snapshots, now, ok))
  {
    var kept := FilterClusters(cfg.pattern, matches, clusters);
    var filtered := FilterSnapshots(SnapshotFilter(cfg, matches, tagsOf), snapshots);
    if filtered.Err? {
      return [], Aborted(UnparsableArn(filtered.error.arn));
    }
    var d := filtered.value;
    ghost var step := TakeStepFor(cfg, d, now, ok);
    calls := [];
    var pending: nat := 0;
    for i := 0 to |kept|
      invariant Run(step, kept[..i]) == Tally(calls, pending, None)
    {
      assert kept[..i + 1][..i] == kept[..i];
      var eff := TakeOne(cfg, d, now, ok, kept[i]);
      if eff.abort.Some? {
        RunSticks(step, kept, i + 1);
        return calls, Aborted(eff.abort.value);
      }
      calls := calls + eff.calls;
      pending := pending + eff.pending;
    }
    assert kept[..|kept|] == kept;
    outcome := if pending > 0 then Pending(pending) else Done;
  }

  /** requires_backup answers True for the cluster. */
  predicate Due(cfg: Config, d: Dict, now: DateTime, c: Cluster)
    requires Valid(now)
  {
    RequiresBackup(cfg.backupInterval, c.identifier, d, now) == Ok(true)
  }

  function CreateFailed(cfg: Config, d: Dict, now: DateTime, ok: Oracle): Cluster -> bool
    requires Valid(now)
  {
    c => Due(cfg, d, now, c) && !ok(CreateRequest(cfg, c, FormatMinute(now)))
  }

  /**
   * A pass raises the strptime error of the first kept cluster whose
   * snapshot names do not parse; otherwise it creates a snapshot for exactly
   * the kept clusters that are due, all stamped with the same minute, and
   * raises SnapshotToolException with the number of creates that failed.
   */
  lemma TakePass(cfg: Config, matches: Matcher, tagsOf: TagLookup, clusters: seq<Cluster>,
                 snapshots: seq<RawSnapshot>, now: DateTime, ok: Oracle)
    requires Valid(now)
    ensures FilterSpec(SnapshotFilter(cfg, matches, tagsOf), snapshots).Ok?
    ensures var d := FilterSpec(SnapshotFilter(cfg, matches, tagsOf), snapshots).value;
      var kept := KeptClusters(cfg.pattern, matches, clusters);
      var t := TakeSpec(cfg, matches, tagsOf, clusters, snapshots, now, ok);
      (t.aborted.Some? <==> exists i | 0 <= i < |kept| :: LatestSnapshotTs(kept[i].identifier, d).Err?) &&
      (t.aborted.None? ==>
        (forall r :: r in t.calls <==>
          exists i | 0 <= i < |kept| :: Due(cfg, d, now, kept[i]) && r == CreateRequest(cfg, kept[i], FormatMinute(now))) &&
        Conclude(t) == (var n := Count(CreateFailed(cfg, d, now, ok), kept); if n > 0 then Pending(n) else Done))
  {
    OwnFilterNeverRaises(SnapshotFilter(cfg, matches, tagsOf), snapshots);
    var d := FilterSpec(SnapshotFilter(cfg, matches, tagsOf), snapshots).value;
    var kept := KeptClusters(cfg.pattern, matches, clusters);
    var step := TakeStepFor(cfg, d, now, ok);
    var failed := CreateFailed(cfg, d, now, ok);
    forall i | 0 <= i < |kept|
      ensures step(kept[i]).abort.Some? <==> LatestSnapshotTs(kept[i].identifier, d).Err?
    {
      assert step(kept[i]) == TakeStep(cfg, d, now, ok, kept[i]);
    }
    RunAborts(step, kept);
    if Run(step, kept).aborted.None? {
      forall i | 0 <= i < |kept|
        ensures step(kept[i]).abort.None?
        ensures step(kept[i]).pending == if failed(kept[i]) then 1 else 0
        ensures step(kept[i]).calls == if Due(cfg, d, now, kept[i]) then [CreateRequest(cfg, kept[i], FormatMinute(now))] else []
      {
        assert step(kept[i]) == TakeStep(cfg, d, now, ok, kept[i]);
        assert failed(kept[i]) == (Due(cfg, d, now, kept[i]) && !ok(CreateRequest(cfg, kept[i], FormatMinute(now))));
      }
      PassOutcome(step, failed, kept);
    }
  }

  /**
   * The snapshot the tool creates without a name prefix reads back, through
   * both decoders, as the pass's time truncated to the minute and to the
   * hour, and its CreatedOn tag holds the stamp in its name.
   */
  lemma CreatedSnapshotName(cfg: Config, c: Cluster, now: DateTime)
    requires Valid(now) && cfg.addName == "NONE"
    ensures var req := CreateRequest(cfg, c, FormatMinute(now));
      GetTimestamp(req.identifier, c.identifier) == Some(TruncateToMinute(now)) &&
      GetTimestampNoMinute(req.identifier, c.identifier) == Hour(TruncateToHour(now)) &&
      Tag("CreatedOn", FormatMinute(now)) in req.tags && req.identifier == c.identifier + "-" + FormatMinute(now)
  {
    DecodeOwnName(c.identifier, now);
    DecodeOwnNameHour(c.identifier, now);
  }

  /**
   * Once the snapshot a pass created at `now` is listed, a later pass finds
   * the cluster due only when INTERVAL hours have passed since `now`
   * truncated to the hour.
   */
  lemma CreatedSnapshotDefers(cfg: Config, c: Cluster, now: DateTime, d: Dict, j: int, later: DateTime)
    requires Valid(now) && Valid(later) && cfg.addName == "NONE" && 0 <= j < |d|
    requires d[j].0 == CreateRequest(cfg, c, FormatMinute(now)).identifier && d[j].1.clusterId == c.identifier
    requires Due(cfg, d, later, c)
    ensures AgeSeconds(later, TruncateToHour(now)) >= cfg.backupInterval * 3600
  {
    CreatedSnapshotName(cfg, c, now);
    RequiresBackupIff(cfg.backupInterval, c.identifier, d, later);
    assert DecodesAt(HoursOf(c.identifier), c.identifier, d, j);
  }
}
