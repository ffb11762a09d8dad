/**
 * delete_old_snapshots_aurora and delete_old_snapshots_dest_aurora: delete
 * the tool's snapshots older than RETENTION_DAYS. The two lambdas share
 * their loop and differ in the PATTERN sentinel, the marking tag and the
 * region they run in.
 */
module Expiry {
  import opened Wrappers
  import opened Timestamps
  import opened Identifiers
  import opened Tags
  import opened Inventory
  import opened Filters
  import opened Requests
  import opened Passes

  /** Which of the two lambdas: the source region's or the destination region's. */
  datatype Side = SourceSide | DestSide

  /** get_own_snapshots of the lambda: ALL_CLUSTERS or ALL_SNAPSHOTS selects everything. */
  function ExpiryFilter(side: Side, cfg: Config, matches: Matcher, tagsOf: TagLookup): Filter {
    Filter(OwnById(if side == SourceSide then AllClusters else AllSnapshots, false), cfg.pattern, matches, tagsOf)
  }

  /** REGION or DEST_REGION. */
  function ExpiryRegion(side: Side, cfg: Config): string {
    if side == SourceSide then cfg.region else cfg.destRegion
  }

  /** search_tag of the lambda: CreatedBy in the source region, CopiedBy in the destination. */
  predicate Marked(side: Side, r: TagResponse) {
    if side == SourceSide then SearchTagCreated(r) else SearchTagCopied(r)
  }

  /** The loop body for one (identifier, entry) of the filtered dict. */
  function ExpiryStep(side: Side, cfg: Config, tagsOf: TagLookup, now: DateTime, ok: Oracle, item: Item): Effect
    requires Valid(now)
  {
    var (id, e) := item;
    match GetTimestamp(id, e.clusterId)
    case None => Effect([], 0, None)
    case Some(created) =>
      if !Marked(side, tagsOf(e.arn)) then Effect([], 0, None)
      else if AgeSeconds(now, created) > cfg.retentionDays * 86400 then
        var req := DeleteSnapshot(ExpiryRegion(side, cfg), id);
        Effect([req], if ok(req) then 0 else 1, None)
      else Effect([], 0, None)
  }

  function ExpiryStepFor(side: Side, cfg: Config, tagsOf: TagLookup, now: DateTime, ok: Oracle): Item -> Effect
    requires Valid(now)
  {
    item => ExpiryStep(side, cfg, tagsOf, now, ok, item)
  }

  /** The whole pass over the listed snapshots. */
  function ExpirySpec(side: Side, cfg: Config, matches: Matcher, tagsOf: TagLookup,
                      snapshots: seq<RawSnapshot>, now: DateTime, ok: Oracle): Tally
    requires Valid(now)
  {
    match FilterSpec(ExpiryFilter(side, cfg, matches, tagsOf), snapshots)
    case Err(s) => Tally([], 0, Some(UnparsableArn(s.arn)))
    case Ok(d) => Run(ExpiryStepFor(side, cfg, tagsOf, now, ok), d)
  }

  /**
   * The loop body of lambda_handler for one snapshot: a delete in the
   * lambda's own region is attempted exactly when the snapshot is expired,
   * a delete that raises adds one to pending, and nothing escapes.
   */
  method ExpireOne(side: Side, cfg: Config, tagsOf: TagLookup, now: DateTime, ok: Oracle, item: Item)
    returns (eff: Effect)
    requires Valid(now)
    ensures eff == ExpiryStepFor(side, cfg, tagsOf, now, ok)(item)
    ensures eff.abort.None?
    ensures eff.calls == if Expired(side, cfg, tagsOf, now, item) then [DeleteSnapshot(ExpiryRegion(side, cfg), item.0)] else []
    ensures eff.pending == if DeleteFailed(side, cfg, tagsOf, now, ok)(item) then 1 else 0
  {
    var (id, e) := item;
    eff := Effect([], 0, None);
    var created := GetTimestamp(id, e.clusterId);
    if created.Some? && Marked(side, tagsOf(e.arn)) {
      if AgeSeconds(now, created.value) > cfg.retentionDays * 86400 {
        var req := DeleteSnapshot(ExpiryRegion(side, cfg), id);
        eff := Effect([req], if ok(req) then 0 else 1, None);
      }
    }
  }

  /** lambda_handler: the calls it attempts and how it ends. */
  method DeleteOldSnapshots(side: Side, cfg: Config, matches: Matcher, tagsOf: TagLookup,
                            snapshots: seq<RawSnapshot>, now: DateTime, ok: Oracle)
    returns (calls: seq<Request>, outcome: Outcome)
    requires Valid(now)
    ensures calls == ExpirySpec(side, cfg, matches, tagsOf, snapshots, now, ok).calls
    ensures outcome == Conclude(ExpirySpec(side, cfg, matches, tagsOf, snapshots, now, ok))
  {
    var filtered := FilterSnapshots(ExpiryFilter(side, cfg, matches, tagsOf), snapshots);
    if filtered.Err? {
      return [], Aborted(UnparsableArn(filtered.error.arn));
    }
    var d := filtered.value;
    ghost var step := ExpiryStepFor(side, cfg, tagsOf, now, ok);
    calls := [];
    var pending: nat := 0;
    for i := 0 to |d|
      invariant Run(step, d[..i]) == Tally(calls, pending, None)
    {
      var eff := ExpireOne(side, cfg, tagsOf, now, ok, d[i]);
      RunStep(step, d, i);
      calls := calls + eff.calls;
      pending := pending + eff.pending;
    }
    assert d[..|d|] == d;
    outcome := if pending > 0 then Pending(pending) else Done;
  }

  /** The snapshot's name decodes, it carries the lambda's tag, and it is strictly older than RETENTION_DAYS. */
  predicate Expired(side: Side, cfg: Config, tagsOf: TagLookup, now: DateTime, item: Item)
    requires Valid(now)
  {
    var created := GetTimestamp(item.0, item.1.clusterId);
    created.Some? && Marked(side, tagsOf(item.1.arn)) &&
    AgeSeconds(now, created.value) > cfg.retentionDays * 86400
  }

  /** An expired snapshot whose delete raised. */
  function DeleteFailed(side: Side, cfg: Config, tagsOf: TagLookup, now: DateTime, ok: Oracle): Item -> bool
    requires Valid(now)
  {
    item => Expired(side, cfg, tagsOf, now, item) && !ok(DeleteSnapshot(ExpiryRegion(side, cfg), item.0))
  }

  /**
   * A pass deletes exactly the expired snapshots of the filtered dict, in its
   * own region, never raises before the end, and raises
   * SnapshotToolException with the number of deletes that failed.
   */
  lemma ExpiryPass(side: Side, cfg: Config, matches: Matcher, tagsOf: TagLookup,
                   snapshots: seq<RawSnapshot>, now: DateTime, ok: Oracle)
    requires Valid(now)
    ensures FilterSpec(ExpiryFilter(side, cfg, matches, tagsOf), snapshots).Ok?
    ensures var d := FilterSpec(ExpiryFilter(side, cfg, matches, tagsOf), snapshots).value;
      var t := ExpirySpec(side, cfg, matches, tagsOf, snapshots, now, ok);
      var failed := Count(DeleteFailed(side, cfg, tagsOf, now, ok), d);
      (forall r :: r in t.calls <==>
        exists i | 0 <= i < |d| :: Expired(side, cfg, tagsOf, now, d[i]) && r == DeleteSnapshot(ExpiryRegion(side, cfg), d[i].0)) &&
      Conclude(t) == (if failed > 0 then Pending(failed) else Done)
  {
    OwnFilterNeverRaises(ExpiryFilter(side, cfg, matches, tagsOf), snapshots);
    var d := FilterSpec(ExpiryFilter(side, cfg, matches, tagsOf), snapshots).value;
    var step := ExpiryStepFor(side, cfg, tagsOf, now, ok);
    var failed := DeleteFailed(side, cfg, tagsOf, now, ok);
    forall i | 0 <= i < |d|
      ensures step(d[i]).abort.None?
      ensures step(d[i]).pending == if failed(d[i]) then 1 else 0
      ensures step(d[i]).calls ==
        if Expired(side, cfg, tagsOf, now, d[i]) then [DeleteSnapshot(ExpiryRegion(side, cfg), d[i].0)] else []
    {
      assert step(d[i]) == ExpiryStep(side, cfg, tagsOf, now, ok, d[i]);
      assert failed(d[i]) == (Expired(side, cfg, tagsOf, now, d[i]) && !ok(DeleteSnapshot(ExpiryRegion(side, cfg), d[i].0)));
    }
    PassOutcome(step, failed, d);
  }

  /**
   * For a snapshot the tool named `<cluster>-<stamp>` at time t and marked,
   * the age is measured from t truncated to the minute and the comparison
   * is strict: a snapshot exactly RETENTION_DAYS old is kept.
   */
  lemma OwnSnapshotExpiry(side: Side, cfg: Config, tagsOf: TagLookup, now: DateTime, ok: Oracle, e: Entry, t: DateTime)
    requires Valid(now) && Valid(t) && Marked(side, tagsOf(e.arn))
    ensures var id := NewSnapshotIdentifier("NONE", e.clusterId, FormatMinute(t));
      Expired(side, cfg, tagsOf, now, (id, e)) <==> AgeSeconds(now, TruncateToMinute(t)) > cfg.retentionDays * 86400
    ensures AgeSeconds(now, TruncateToMinute(t)) == cfg.retentionDays * 86400 ==>
      var id := NewSnapshotIdentifier("NONE", e.clusterId, FormatMinute(t));
      ExpiryStep(side, cfg, tagsOf, now, ok, (id, e)).calls == []
  {
    DecodeOwnName(e.clusterId, t);
  }
}
