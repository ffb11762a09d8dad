/**
 * share_snapshots_aurora: share the tool's available snapshots with
 * DEST_ACCOUNT by adding it to their 'restore' attribute.
 */
module Share {
  import opened Wrappers
  import opened Tags
  import opened Inventory
  import opened Filters
  import opened Requests
  import opened Passes

  /** get_own_snapshots of the lambda. */
  function ShareFilter(cfg: Config, matches: Matcher, tagsOf: TagLookup): Filter {
    Filter(OwnById(AllClusters, false), cfg.pattern, matches, tagsOf)
  }

  /** modify_db_cluster_snapshot_attribute(..., AttributeName='restore', ValuesToAdd=[DEST_ACCOUNTID]) */
  function ShareRequest(cfg: Config, id: string): Request {
    ShareSnapshot(cfg.region, id, "restore", cfg.destAccount)
  }

  /** The loop body for one (identifier, entry) of the filtered dict. */
  function ShareStep(cfg: Config, tagsOf: TagLookup, ok: Oracle, item: Item): Effect {
    var (id, e) := item;
    match e.status
    case None => Effect([], 0, Some(MissingStatus(id)))
    case Some(status) =>
      if Lower(status) == "available" && SearchTagShare(tagsOf(e.arn)) then
        var req := ShareRequest(cfg, id);
        Effect([req], if ok(req) then 0 else 1, None)
      else Effect([], 0, None)
  }

  function ShareStepFor(cfg: Config, tagsOf: TagLookup, ok: Oracle): Item -> Effect {
    item => ShareStep(cfg, tagsOf, ok, item)
  }

  function ShareSpec(cfg: Config, matches: Matcher, tagsOf: TagLookup, snapshots: seq<RawSnapshot>, ok: Oracle): Tally {
    match FilterSpec(ShareFilter(cfg, matches, tagsOf), snapshots)
    case Err(s) => Tally([], 0, Some(UnparsableArn(s.arn)))
    case Ok(d) => Run(ShareStepFor(cfg, tagsOf, ok), d)
  }

  /**
   * The loop body of lambda_handler for one snapshot: a value without
   * 'Status' raises KeyError; otherwise the share is attempted exactly when
   * the snapshot is shareable, and a share that raises adds one to pending.
   */
  method ShareOne(cfg: Config, tagsOf: TagLookup, ok: Oracle, id: string, e: Entry) returns (eff: Effect)
    ensures eff == ShareStep(cfg, tagsOf, ok, (id, e))
    ensures eff.abort.Some? <==> e.status.None?
    ensures eff.abort.Some? ==> eff == Effect([], 0, Some(MissingStatus(id)))
    ensures eff.calls == if Shareable(tagsOf, (id, e)) then [ShareRequest(cfg, id)] else []
    ensures eff.pending == if ShareFailed(cfg, tagsOf, ok)((id, e)) then 1 else 0
  {
    if e.status.None? {
      return Effect([], 0, Some(MissingStatus(id)));
    }
    var call: seq<Request> := [];
    var failed := 0;
    if Lower(e.status.value) == "available" && SearchTagShare(tagsOf(e.arn)) {
      var req := ShareRequest(cfg, id);
      call := [req];
      if !ok(req) {
        failed := 1;
      }
    }
    eff := Effect(call, failed, None);
  }

  /** lambda_handler: the calls it attempts and how it ends. */
  method ShareSnapshots(cfg: Config, matches: Matcher, tagsOf: TagLookup, snapshots: seq<RawSnapshot>, ok: Oracle)
    returns (calls: seq<Request>, outcome: Outcome)
    ensures calls == ShareSpec(cfg, matches, tagsOf, snapshots, ok).calls
    ensures outcome == Conclude(ShareSpec(cfg, matches, tagsOf, snapshots, ok))
  {
    var filtered := FilterSnapshots(ShareFilter(cfg, matches, tagsOf), snapshots);
    if filtered.Err? {
      return [], Aborted(UnparsableArn(filtered.error.arn));
    }
    var d := filtered.value;
    ghost var step := ShareStepFor(cfg, tagsOf, ok);
    calls := [];
    var pending: nat := 0;
    for i := 0 to |d|
      invariant Run(step, d[..i]) == Tally(calls, pending, None)
    {
      assert d[..i + 1][..i] == d[..i];
      var (id, e) := d[i];
      var eff := ShareOne(cfg, tagsOf, ok, id, e);
      if eff.abort.Some? {
        RunSticks(step, d, i + 1);
        return calls, Aborted(eff.abort.value);
      }
      calls := calls + eff.calls;
      pending := pending + eff.pending;
    }
    assert d[..|d|] == d;
    outcome := if pending > 0 then Pending(pending) else Done;
  }

  /** Available (in any letter case) and tagged both shareAndCopy=YES and CreatedBy the tool. */
  predicate Shareable(tagsOf: TagLookup, item: Item) {
    item.1.status.Some? && Lower(item.1.status.value) == "available" && SearchTagShare(tagsOf(item.1.arn))
  }

  function ShareFailed(cfg: Config, tagsOf: TagLookup, ok: Oracle): Item -> bool {
    item => Shareable(tagsOf, item) && !ok(ShareRequest(cfg, item.0))
  }

  /**
   * A pass shares exactly the shareable snapshots with DEST_ACCOUNT and
   * makes no other call (it writes no tags); it raises
   * SnapshotToolException with the number of shares that failed. Every
   * filtered value carries 'Status', so the lookup never raises.
   */
  lemma SharePass(cfg: Config, matches: Matcher, tagsOf: TagLookup, snapshots: seq<RawSnapshot>, ok: Oracle)
    ensures FilterSpec(ShareFilter(cfg, matches, tagsOf), snapshots).Ok?
    ensures var d := FilterSpec(ShareFilter(cfg, matches, tagsOf), snapshots).value;
      var t := ShareSpec(cfg, matches, tagsOf, snapshots, ok);
      var failed := Count(ShareFailed(cfg, tagsOf, ok), d);
      (forall r :: r in t.calls <==> exists i | 0 <= i < |d| :: Shareable(tagsOf, d[i]) && r == ShareRequest(cfg, d[i].0)) &&
      (forall r | r in t.calls :: r.ShareSnapshot? && r.attribute == "restore" && r.account == cfg.destAccount) &&
      Conclude(t) == (if failed > 0 then Pending(failed) else Done)
  {
    var f := ShareFilter(cfg, matches, tagsOf);
    OwnFilterNeverRaises(f, snapshots);
    FilterItemsShaped(f, snapshots);
    var d := FilterSpec(f, snapshots).value;
    var step := ShareStepFor(cfg, tagsOf, ok);
    var failed := ShareFailed(cfg, tagsOf, ok);
    forall i | 0 <= i < |d|
      ensures step(d[i]).abort.None?
      ensures step(d[i]).pending == if failed(d[i]) then 1 else 0
      ensures step(d[i]).calls == if Shareable(tagsOf, d[i]) then [ShareRequest(cfg, d[i].0)] else []
    {
      assert WellShaped(f.kind, d[i].1);
      assert step(d[i]) == ShareStep(cfg, tagsOf, ok, d[i]);
      assert failed(d[i]) == (Shareable(tagsOf, d[i]) && !ok(ShareRequest(cfg, d[i].0)));
    }
    PassOutcome(step, failed, d);
  }
}
