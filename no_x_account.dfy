/**
 * copy_snapshots_no_x_account_aurora: copy the tool's snapshots from REGION
 * into DEST_REGION within the same account.
 */
module NoXAccount {
  import opened Wrappers
  import opened Tags
  import opened Inventory
  import opened Filters
  import opened Requests
  import opened Passes

  /** get_own_snapshots_source over the local listing. */
  function SourceFilter(cfg: Config, matches: Matcher, tagsOf: TagLookup): Filter {
    Filter(OwnSource, cfg.pattern, matches, tagsOf)
  }

  /** get_own_snapshots_dest, over the local listing and over the DEST_REGION listing. */
  function DestFilter(cfg: Config, matches: Matcher, tagsOf: TagLookup): Filter {
    Filter(OwnDest, cfg.pattern, matches, tagsOf)
  }

  /** The snapshot is local, not yet in DEST_REGION, and the regions differ. */
  predicate Missing(cfg: Config, own: Dict, dest: Dict, id: string) {
    Find(dest, id).None? && Find(own, id).Some? && cfg.region != cfg.destRegion
  }

  /** The loop body for one (identifier, entry) of the source dict. */
  function NoXStep(cfg: Config, own: Dict, dest: Dict, ok: Oracle, item: Item): Effect {
    var id := item.0;
    if Find(dest, id).None? && Find(own, id).Some? && cfg.region != cfg.destRegion then
      var e := Find(own, id).value;
      match e.status
      case None => Effect([], 0, Some(MissingStatus(id)))
      case Some(status) =>
        if status == "available" then
          var req := CopyRemote(cfg, id, e);
          Effect([req], if ok(req) then 0 else 1, None)
        else Effect([], 1, None)
    else Effect([], 0, None)
  }

  function NoXStepFor(cfg: Config, own: Dict, dest: Dict, ok: Oracle): Item -> Effect {
    item => NoXStep(cfg, own, dest, ok, item)
  }

  /** The pass over the local listing `local` and the DEST_REGION listing `remote`. */
  function NoXSpec(cfg: Config, matches: Matcher, tagsOf: TagLookup, local: seq<RawSnapshot>,
                   remote: seq<RawSnapshot>, ok: Oracle): Tally {
    match FilterSpec(SourceFilter(cfg, matches, tagsOf), local)
    case Err(s) => Tally([], 0, Some(UnparsableArn(s.arn)))
    case Ok(source) =>
      match FilterSpec(DestFilter(cfg, matches, tagsOf), local)
      case Err(s) => Tally([], 0, Some(UnparsableArn(s.arn)))
      case Ok(own) =>
        match FilterSpec(DestFilter(cfg, matches, tagsOf), remote)
        case Err(s) => Tally([], 0, Some(UnparsableArn(s.arn)))
        case Ok(dest) => Run(NoXStepFor(cfg, own, dest, ok), source)
  }

  /**
   * The loop body of lambda_handler for one snapshot: the remote copy is
   * attempted exactly when the snapshot is copyable; a missing snapshot
   * whose own value lacks 'Status' raises KeyError, and otherwise one that
   * is not copied or whose copy raised adds one to pending.
   */
  method NoXOne(cfg: Config, own: Dict, dest: Dict, ok: Oracle, id: string, e: Entry) returns (eff: Effect)
    ensures eff == NoXStep(cfg, own, dest, ok, (id, e))
    ensures eff.abort.Some? <==> Missing(cfg, own, dest, id) && Find(own, id).value.status.None?
    ensures eff.calls == if Copyable(cfg, own, dest, id) then [CopyRemote(cfg, id, Find(own, id).value)] else []
    ensures eff.abort.None? ==> eff.pending == if CopyPending(cfg, own, dest, ok)((id, e)) then 1 else 0
  {
    eff := Effect([], 0, None);
    var inDest := Find(dest, id);
    var inOwn := Find(own, id);
    if inDest.None? && inOwn.Some? && cfg.region != cfg.destRegion {
      var attributes := inOwn.value;
      if attributes.status.None? {
        return Effect([], 0, Some(MissingStatus(id)));
      }
      if attributes.status.value == "available" {
        var req := CopyRemote(cfg, id, attributes);
        eff := Effect([req], if ok(req) then 0 else 1, None);
      } else {
        eff := Effect([], 1, None);
      }
    }
  }

  /** lambda_handler: the calls it attempts and how it ends. */
  method CopyNoXAccount(cfg: Config, matches: Matcher, tagsOf: TagLookup, local: seq<RawSnapshot>,
                        remote: seq<RawSnapshot>, ok: Oracle)
    returns (calls: seq<Request>, outcome: Outcome)
    ensures calls == NoXSpec(cfg, matches, tagsOf, local, remote, ok).calls
    ensures outcome == Conclude(NoXSpec(cfg, matches, tagsOf, local, remote, ok))
  {
    var sourceResult := FilterSnapshots(SourceFilter(cfg, matches, tagsOf), local);
    if sourceResult.Err? {
      return [], Aborted(UnparsableArn(sourceResult.error.arn));
    }
    var ownResult := FilterSnapshots(DestFilter(cfg, matches, tagsOf), local);
    if ownResult.Err? {
      return [], Aborted(UnparsableArn(ownResult.error.arn));
    }
    var destResult := FilterSnapshots(DestFilter(cfg, matches, tagsOf), remote);
    if destResult.Err? {
      return [], Aborted(UnparsableArn(destResult.error.arn));
    }
    var source, own, dest := sourceResult.value, ownResult.value, destResult.value;
    ghost var step := NoXStepFor(cfg, own, dest, ok);
    calls := [];
    var pending: nat := 0;
    for i := 0 to |source|
      invariant Run(step, source[..i]) == Tally(calls, pending, None)
    {
      assert source[..i + 1][..i] == source[..i];
      var (id, e) := source[i];
      var eff := NoXOne(cfg, own, dest, ok, id, e);
      if eff.abort.Some? {
        RunSticks(step, source, i + 1);
        return calls, Aborted(eff.abort.value);
      }
      calls := calls + eff.calls;
      pending := pending + eff.pending;
    }
    assert source[..|source|] == source;
    outcome := if pending > 0 then Pending(pending) else Done;
  }

  /** Missing from DEST_REGION and available locally: the remote copy is attempted. */
  predicate Copyable(cfg: Config, own: Dict, dest: Dict, id: string) {
    Missing(cfg, own, dest, id) && Find(own, id).value.status == Some("available")
  }

  /** Missing from DEST_REGION and either not yet available or its copy raised. */
  function CopyPending(cfg: Config, own: Dict, dest: Dict, ok: Oracle): Item -> bool {
    (item: Item) => Missing(cfg, own, dest, item.0) &&
      (!Copyable(cfg, own, dest, item.0) || !ok(CopyRemote(cfg, item.0, Find(own, item.0).value)))
  }

  /**
   * A pass never raises before the end; it copies into DEST_REGION exactly
   * the source snapshots that are copyable, each under its own identifier
   * with the tags carried across, and counts as pending every missing
   * snapshot that is not available or whose copy raised.
   */
  lemma NoXPass(cfg: Config, matches: Matcher, tagsOf: TagLookup, local: seq<RawSnapshot>,
                remote: seq<RawSnapshot>, ok: Oracle)
    ensures FilterSpec(SourceFilter(cfg, matches, tagsOf), local).Ok?
    ensures FilterSpec(DestFilter(cfg, matches, tagsOf), local).Ok?
    ensures FilterSpec(DestFilter(cfg, matches, tagsOf), remote).Ok?
    ensures var source := FilterSpec(SourceFilter(cfg, matches, tagsOf), local).value;
      var own := FilterSpec(DestFilter(cfg, matches, tagsOf), local).value;
      var dest := FilterSpec(DestFilter(cfg, matches, tagsOf), remote).value;
      var t := NoXSpec(cfg, matches, tagsOf, local, remote, ok);
      var n := Count(CopyPending(cfg, own, dest, ok), source);
      (forall r :: r in t.calls <==>
        exists i | 0 <= i < |source| ::
          Copyable(cfg, own, dest, source[i].0) && r == CopyRemote(cfg, source[i].0, Find(own, source[i].0).value)) &&
      (forall r | r in t.calls :: r.CopySnapshot? && r.region == cfg.destRegion && r.sourceRegion == Some(cfg.region)) &&
      Conclude(t) == (if n > 0 then Pending(n) else Done)
  {
    OwnFilterNeverRaises(SourceFilter(cfg, matches, tagsOf), local);
    OwnFilterNeverRaises(DestFilter(cfg, matches, tagsOf), local);
    OwnFilterNeverRaises(DestFilter(cfg, matches, tagsOf), remote);
    var source := FilterSpec(SourceFilter(cfg, matches, tagsOf), local).value;
    var own := FilterSpec(DestFilter(cfg, matches, tagsOf), local).value;
    var dest := FilterSpec(DestFilter(cfg, matches, tagsOf), remote).value;
    var step := NoXStepFor(cfg, own, dest, ok);
    var pending := CopyPending(cfg, own, dest, ok);
    forall i | 0 <= i < |source|
      ensures step(source[i]).abort.None?
      ensures step(source[i]).pending == if pending(source[i]) then 1 else 0
      ensures step(source[i]).calls ==
        if Copyable(cfg, own, dest, source[i].0) then [CopyRemote(cfg, source[i].0, Find(own, source[i].0).value)] else []
    {
      var id := source[i].0;
      if Find(own, id).Some? {
        FilterSelects(DestFilter(cfg, matches, tagsOf), local, id);
      }
      assert step(source[i]) == NoXStep(cfg, own, dest, ok, source[i]);
      assert pending(source[i]) == (Missing(cfg, own, dest, id) &&
        (!Copyable(cfg, own, dest, id) || !ok(CopyRemote(cfg, id, Find(own, id).value))));
    }
    PassOutcome(step, pending, source);
  }

  /**
   * Unless PATTERN is ALL_CLUSTERS (which the source filter treats as a
   * wildcard and the destination filter does not), every source snapshot
   * is also in the local own dict, so each one absent from DEST_REGION is
   * copied or counted as pending when the regions differ.
   */
  lemma SourceWithinOwn(cfg: Config, matches: Matcher, tagsOf: TagLookup, local: seq<RawSnapshot>, k: string)
    requires cfg.pattern != AllClusters
    requires FilterSpec(SourceFilter(cfg, matches, tagsOf), local).Ok?
    requires FilterSpec(DestFilter(cfg, matches, tagsOf), local).Ok?
    requires k in Keys(FilterSpec(SourceFilter(cfg, matches, tagsOf), local).value)
    ensures k in Keys(FilterSpec(DestFilter(cfg, matches, tagsOf), local).value)
  {
    FilterSelects(SourceFilter(cfg, matches, tagsOf), local, k);
    FilterSelects(DestFilter(cfg, matches, tagsOf), local, k);
    var i :| 0 <= i < |local| && Selected(SourceFilter(cfg, matches, tagsOf), local[i]) &&
      KeyOf(OwnSource, local[i]) == Some(k);
    assert Selected(DestFilter(cfg, matches, tagsOf), local[i]);
  }
}
