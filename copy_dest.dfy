/**
 * copy_snapshots_dest_aurora, run in the destination account: copy each
 * snapshot shared with it into the account, then into DEST_REGION, then
 * delete the local copy. One pass moves each snapshot at most one step.
 */
module CopyDest {
  import opened Wrappers
  import opened Timestamps
  import opened Identifiers
  import opened Tags
  import opened Inventory
  import opened Filters
  import opened Requests
  import opened Passes

  /** get_shared_snapshots of the lambda, keyed by the identifier inside the ARN. */
  function SharedFilter(cfg: Config, matches: Matcher, tagsOf: TagLookup): Filter {
    Filter(SharedById, cfg.pattern, matches, tagsOf)
  }

  /** get_own_snapshots of the lambda, over the local and the DEST_REGION listing. */
  function OwnFilter(cfg: Config, matches: Matcher, tagsOf: TagLookup): Filter {
    Filter(OwnById(AllSnapshots, true), cfg.pattern, matches, tagsOf)
  }

  /** Where a shared snapshot is: nowhere yet, copied locally, in both regions, or only in DEST_REGION. */
  datatype Stage = Fresh | LocalOnly | Both | RemoteOnly

  function StageOf(own: Dict, dest: Dict, id: string): Stage {
    match (Find(own, id).Some?, Find(dest, id).Some?)
    case (false, false) => Fresh
    case (true, false) => LocalOnly
    case (true, true) => Both
    case (false, true) => RemoteOnly
  }

  /** The loop body for one (identifier, entry) of the shared dict. */
  function CopyDestStep(cfg: Config, own: Dict, dest: Dict, now: DateTime, ok: Oracle, item: Item): Effect
    requires Valid(now)
  {
    var (id, e) := item;
    if Find(own, id).None? && Find(dest, id).None? then
      match GetTimestamp(id, e.clusterId)
      case None => Effect([], 0, None)
      case Some(created) =>
        if AgeSeconds(now, created) < cfg.retentionDays * 86400 then
          var req := CopyLocal(cfg, id, e);
          // A failed copy is pending; a successful one leaves the remote copy pending.
          Effect([req], if !ok(req) || cfg.region != cfg.destRegion then 1 else 0, None)
        else Effect([], 0, None)
    else if Find(dest, id).None? && Find(own, id).Some? && cfg.region != cfg.destRegion then
      var o := Find(own, id).value;
      match o.status
      case None => Effect([], 0, Some(MissingStatus(id)))
      case Some(status) =>
        if status == "available" then
          var req := CopyRemote(cfg, id, o);
          Effect([req], if ok(req) then 0 else 1, None)
        else Effect([], 1, None)
    else if Find(dest, id).Some? && Find(own, id).Some? then
      match Find(dest, id).value.status
      case None => Effect([], 0, Some(MissingStatus(id)))
      case Some(status) =>
        if status == "available" && cfg.region != cfg.destRegion then
          var req := DeleteSnapshot(cfg.region, id);
          Effect([req], 0, if ok(req) then None else Some(CallRaised(req)))
        else Effect([], 0, None)
    else Effect([], 0, None)
  }

  function CopyDestStepFor(cfg: Config, own: Dict, dest: Dict, now: DateTime, ok: Oracle): Item -> Effect
    requires Valid(now)
  {
    item => CopyDestStep(cfg, own, dest, now, ok, item)
  }

  /** The pass over the local listing (shared snapshots included) and the DEST_REGION listing. */
  function CopyDestSpec(cfg: Config, matches: Matcher, tagsOf: TagLookup, local: seq<RawSnapshot>,
                        remote: seq<RawSnapshot>, now: DateTime, ok: Oracle): Tally
    requires Valid(now)
  {
    match FilterSpec(SharedFilter(cfg, matches, tagsOf), local)
    case Err(s) => Tally([], 0, Some(UnparsableArn(s.arn)))
    case Ok(shared) =>
      match FilterSpec(OwnFilter(cfg, matches, tagsOf), local)
      case Err(s) => Tally([], 0, Some(UnparsableArn(s.arn)))
      case Ok(own) =>
        match FilterSpec(OwnFilter(cfg, matches, tagsOf), remote)
        case Err(s) => Tally([], 0, Some(UnparsableArn(s.arn)))
        case Ok(dest) => Run(CopyDestStepFor(cfg, own, dest, now, ok), shared)
  }

  /**
   * The loop body of lambda_handler for one shared snapshot: it makes the
   * one call its stage calls for, if any; when nothing escapes, it adds one
   * to pending exactly when the snapshot is left pending; and over dicts
   * that carry 'Status' only a failed local delete escapes.
   */
  method CopyDestOne(cfg: Config, own: Dict, dest: Dict, now: DateTime, ok: Oracle, id: string, e: Entry)
    returns (eff: Effect)
    requires Valid(now)
    ensures eff == CopyDestStep(cfg, own, dest, now, ok, (id, e))
    ensures eff.calls == StageAction(cfg, own, dest, now, (id, e))
    ensures eff.abort.None? ==> eff.pending == if LeftPending(cfg, own, dest, now, ok, (id, e)) then 1 else 0
    ensures HasStatus(own) && HasStatus(dest) ==>
      (eff.abort.Some? <==> DeleteDue(cfg, own, dest, id) && !ok(DeleteSnapshot(cfg.region, id)))
  {
    eff := Effect([], 0, None);
    var inOwn, inDest := Find(own, id), Find(dest, id);
    if inOwn.None? && inDest.None? {
      var created := GetTimestamp(id, e.clusterId);
      if created.Some? {
        if AgeSeconds(now, created.value) < cfg.retentionDays * 86400 {
          var req := CopyLocal(cfg, id, e);
          if !ok(req) {
            eff := Effect([req], 1, None);
          } else if cfg.region != cfg.destRegion {
            eff := Effect([req], 1, None);
          } else {
            eff := Effect([req], 0, None);
          }
        }
      }
    } else if inDest.None? && inOwn.Some? && cfg.region != cfg.destRegion {
      var o := inOwn.value;
      if o.status.None? {
        return Effect([], 0, Some(MissingStatus(id)));
      }
      if o.status.value == "available" {
        var req := CopyRemote(cfg, id, o);
        eff := Effect([req], if ok(req) then 0 else 1, None);
      } else {
        eff := Effect([], 1, None);
      }
    } else if inDest.Some? && inOwn.Some? {
      var d := inDest.value;
      if d.status.None? {
        return Effect([], 0, Some(MissingStatus(id)));
      }
      if d.status.value == "available" && cfg.region != cfg.destRegion {
        var req := DeleteSnapshot(cfg.region, id);
        eff := Effect([req], 0, if ok(req) then None else Some(CallRaised(req)));
      }
    }
  }

  /** lambda_handler: the calls it attempts and how it ends. */
  method CopySnapshotsDest(cfg: Config, matches: Matcher, tagsOf: TagLookup, local: seq<RawSnapshot>,
                           remote: seq<RawSnapshot>, now: DateTime, ok: Oracle)
    returns (calls: seq<Request>, outcome: Outcome)
    requires Valid(now)
    ensures calls == CopyDestSpec(cfg, matches, tagsOf, local, remote, now, ok).calls
    ensures outcome == Conclude(CopyDestSpec(cfg, matches, tagsOf, local, remote, now, ok))
  {
    var sharedResult := FilterSnapshots(SharedFilter(cfg, matches, tagsOf), local);
    if sharedResult.Err? {
      return [], Aborted(UnparsableArn(sharedResult.error.arn));
    }
    var ownResult := FilterSnapshots(OwnFilter(cfg, matches, tagsOf), local);
    if ownResult.Err? {
      return [], Aborted(UnparsableArn(ownResult.error.arn));
    }
    var destResult := FilterSnapshots(OwnFilter(cfg, matches, tagsOf), remote);
    if destResult.Err? {
      return [], Aborted(UnparsableArn(destResult.error.arn));
    }
    var shared, own, dest := sharedResult.value, ownResult.value, destResult.value;
    ghost var step := CopyDestStepFor(cfg, own, dest, now, ok);
    calls := [];
    var pending: nat := 0;
    for i := 0 to |shared|
      invariant Run(step, shared[..i]) == Tally(calls, pending, None)
    {
      assert shared[..i + 1][..i] == shared[..i];
      var (id, e) := shared[i];
      var eff := CopyDestOne(cfg, own, dest, now, ok, id, e);
      if eff.abort.Some? {
        RunSticks(step, shared, i + 1);
        return calls + eff.calls, Aborted(eff.abort.value);
      }
      calls := calls + eff.calls;
      pending := pending + eff.pending;
    }
    assert shared[..|shared|] == shared;
    outcome := if pending > 0 then Pending(pending) else Done;
  }

  /** A fresh shared snapshot whose name decodes to a time less than RETENTION_DAYS ago. */
  predicate LocalDue(cfg: Config, own: Dict, dest: Dict, now: DateTime, item: Item)
    requires Valid(now)
  {
    var created := GetTimestamp(item.0, item.1.clusterId);
    StageOf(own, dest, item.0) == Fresh && created.Some? &&
    AgeSeconds(now, created.value) < cfg.retentionDays * 86400
  }

  /** Copied locally, not yet in DEST_REGION, and the regions differ. */
  predicate RemoteDue(cfg: Config, own: Dict, dest: Dict, id: string) {
    StageOf(own, dest, id) == LocalOnly && cfg.region != cfg.destRegion
  }

  /** A remote copy that can start: the local copy is available. */
  predicate RemoteReady(cfg: Config, own: Dict, dest: Dict, id: string) {
    RemoteDue(cfg, own, dest, id) && Find(own, id).value.status == Some("available")
  }

  /** In both regions, available in DEST_REGION, and the regions differ. */
  predicate DeleteDue(cfg: Config, own: Dict, dest: Dict, id: string) {
    StageOf(own, dest, id) == Both && Find(dest, id).value.status == Some("available") &&
    cfg.region != cfg.destRegion
  }

  /** Every value of the dict carries 'Status', as get_own_snapshots writes it. */
  predicate HasStatus(d: Dict) {
    forall i | 0 <= i < |d| :: d[i].1.status.Some?
  }

  /** Status of a present key, read from a dict whose values all carry it. */
  lemma FoundHasStatus(d: Dict, id: string)
    requires HasStatus(d) && Find(d, id).Some?
    ensures Find(d, id).value.status.Some?
  {
    var k :| 0 <= k < |d| && d[k] == (id, Find(d, id).value);
  }

  /** What the pass leaves pending for a snapshot: a local copy (failed, or the remote one still to come) or a remote copy. */
  predicate LeftPending(cfg: Config, own: Dict, dest: Dict, now: DateTime, ok: Oracle, item: Item)
    requires Valid(now)
  {
    (LocalDue(cfg, own, dest, now, item) && (!ok(CopyLocal(cfg, item.0, item.1)) || cfg.region != cfg.destRegion)) ||
    (RemoteDue(cfg, own, dest, item.0) && !(RemoteReady(cfg, own, dest, item.0) && ok(CopyRemote(cfg, item.0, Find(own, item.0).value))))
  }

  function CopyPending(cfg: Config, own: Dict, dest: Dict, now: DateTime, ok: Oracle): Item -> bool
    requires Valid(now)
  {
    (item: Item) => LeftPending(cfg, own, dest, now, ok, item)
  }

  /** The single call a step makes, if any: each stage has exactly one possible action. */
  function StageAction(cfg: Config, own: Dict, dest: Dict, now: DateTime, item: Item): seq<Request>
    requires Valid(now)
  {
    if LocalDue(cfg, own, dest, now, item) then [CopyLocal(cfg, item.0, item.1)]
    else if RemoteReady(cfg, own, dest, item.0) then [CopyRemote(cfg, item.0, Find(own, item.0).value)]
    else if DeleteDue(cfg, own, dest, item.0) then [DeleteSnapshot(cfg.region, item.0)]
    else []
  }

  /**
   * One pass moves a snapshot at most one stage on: a fresh one is only ever
   * copied locally, a local one only copied to DEST_REGION, one in both
   * regions only deleted locally, and one only in DEST_REGION is left
   * alone. Nothing raises except a failed delete.
   */
  lemma StepFollowsStage(cfg: Config, own: Dict, dest: Dict, now: DateTime, ok: Oracle, item: Item)
    requires Valid(now) && HasStatus(own) && HasStatus(dest)
    ensures var eff := CopyDestStep(cfg, own, dest, now, ok, item);
      eff.calls == StageAction(cfg, own, dest, now, item) &&
      eff.pending == (if LeftPending(cfg, own, dest, now, ok, item) then 1 else 0) &&
      (eff.abort.Some? <==> DeleteDue(cfg, own, dest, item.0) && !ok(DeleteSnapshot(cfg.region, item.0)))
  {
    var id := item.0;
    match StageOf(own, dest, id)
    case Fresh =>
    case LocalOnly =>
      FoundHasStatus(own, id);
    case Both =>
      FoundHasStatus(dest, id);
    case RemoteOnly =>
  }

  /**
   * The actions in stage order: each one's target is the identifier itself,
   * in the region whose absence triggered it, so a successful action moves
   * the snapshot to the next stage; with REGION equal to DEST_REGION only
   * local copies happen.
   */
  lemma StageActions(cfg: Config, own: Dict, dest: Dict, now: DateTime, item: Item)
    requires Valid(now)
    ensures var calls := StageAction(cfg, own, dest, now, item);
      var id := item.0;
      |calls| <= 1 &&
      (StageOf(own, dest, id) == Fresh ==> forall r | r in calls :: r.CopySnapshot? && r.target == id && r.region == cfg.region) &&
      (StageOf(own, dest, id) == LocalOnly ==> forall r | r in calls :: r.CopySnapshot? && r.target == id && r.region == cfg.destRegion) &&
      (StageOf(own, dest, id) == Both ==> forall r | r in calls :: r == DeleteSnapshot(cfg.region, id)) &&
      (StageOf(own, dest, id) == RemoteOnly ==> calls == []) &&
      (cfg.region == cfg.destRegion ==> forall r | r in calls :: r == CopyLocal(cfg, id, item.1))
  {
  }

  /** The own dicts the pass builds always carry 'Status'. */
  lemma OwnDictsHaveStatus(cfg: Config, matches: Matcher, tagsOf: TagLookup, xs: seq<RawSnapshot>)
    ensures FilterSpec(OwnFilter(cfg, matches, tagsOf), xs).Ok?
    ensures HasStatus(FilterSpec(OwnFilter(cfg, matches, tagsOf), xs).value)
  {
    OwnFilterNeverRaises(OwnFilter(cfg, matches, tagsOf), xs);
    FilterItemsShaped(OwnFilter(cfg, matches, tagsOf), xs);
  }

  /**
   * A pass over a shared dict that decodes: it raises exactly when a local
   * delete raises; otherwise its calls are the local copies, remote copies
   * and local deletes that are due, and it raises SnapshotToolException
   * with the number of snapshots left pending.
   */
  lemma CopyDestPass(cfg: Config, matches: Matcher, tagsOf: TagLookup, local: seq<RawSnapshot>,
                     remote: seq<RawSnapshot>, now: DateTime, ok: Oracle)
    requires Valid(now) && FilterSpec(SharedFilter(cfg, matches, tagsOf), local).Ok?
    ensures FilterSpec(OwnFilter(cfg, matches, tagsOf), local).Ok? && FilterSpec(OwnFilter(cfg, matches, tagsOf), remote).Ok?
    ensures var shared := FilterSpec(SharedFilter(cfg, matches, tagsOf), local).value;
      var own := FilterSpec(OwnFilter(cfg, matches, tagsOf), local).value;
      var dest := FilterSpec(OwnFilter(cfg, matches, tagsOf), remote).value;
      var t := CopyDestSpec(cfg, matches, tagsOf, local, remote, now, ok);
      (t.aborted.Some? <==>
        exists i | 0 <= i < |shared| :: DeleteDue(cfg, own, dest, shared[i].0) && !ok(DeleteSnapshot(cfg.region, shared[i].0))) &&
      (t.aborted.None? ==>
        (forall r :: r in t.calls <==> exists i | 0 <= i < |shared| :: r in StageAction(cfg, own, dest, now, shared[i])) &&
        Conclude(t) == (var n := Count(CopyPending(cfg, own, dest, now, ok), shared); if n > 0 then Pending(n) else Done))
  {
    OwnDictsHaveStatus(cfg, matches, tagsOf, local);
    OwnDictsHaveStatus(cfg, matches, tagsOf, remote);
    var shared := FilterSpec(SharedFilter(cfg, matches, tagsOf), local).value;
    var own := FilterSpec(OwnFilter(cfg, matches, tagsOf), local).value;
    var dest := FilterSpec(OwnFilter(cfg, matches, tagsOf), remote).value;
    var step := CopyDestStepFor(cfg, own, dest, now, ok);
    var pending := CopyPending(cfg, own, dest, now, ok);
    forall i | 0 <= i < |shared|
      ensures step(shared[i]).abort.Some? <==>
        DeleteDue(cfg, own, dest, shared[i].0) && !ok(DeleteSnapshot(cfg.region, shared[i].0))
      ensures step(shared[i]).pending == if pending(shared[i]) then 1 else 0
      ensures step(shared[i]).calls == StageAction(cfg, own, dest, now, shared[i])
    {
      assert step(shared[i]) == CopyDestStep(cfg, own, dest, now, ok, shared[i]);
      StepFollowsStage(cfg, own, dest, now, ok, shared[i]);
    }
    RunAborts(step, shared);
    if Run(step, shared).aborted.None? {
      PassOutcome(step, pending, shared);
    }
  }

  /**
   * Four passes over one shared snapshot that the tool named, with every
   * call returning and both copies available: a local copy (the remote one
   * then pending), the remote copy, the local delete, then nothing.
   */
  lemma Lineage(cfg: Config, now: DateTime, ok: Oracle, t: DateTime, e: Entry, o: Entry, r: Entry)
    requires Valid(now) && Valid(t) && cfg.region != cfg.destRegion
    requires AgeSeconds(now, TruncateToMinute(t)) < cfg.retentionDays * 86400
    requires o.status == Some("available") && r.status == Some("available")
    requires var id := NewSnapshotIdentifier("NONE", e.clusterId, FormatMinute(t));
      ok(CopyLocal(cfg, id, e)) && ok(CopyRemote(cfg, id, o)) && ok(DeleteSnapshot(cfg.region, id))
    ensures var id := NewSnapshotIdentifier("NONE", e.clusterId, FormatMinute(t));
      CopyDestStep(cfg, [], [], now, ok, (id, e)) == Effect([CopyLocal(cfg, id, e)], 1, None) &&
      CopyDestStep(cfg, [(id, o)], [], now, ok, (id, e)) == Effect([CopyRemote(cfg, id, o)], 0, None) &&
      CopyDestStep(cfg, [(id, o)], [(id, r)], now, ok, (id, e)) == Effect([DeleteSnapshot(cfg.region, id)], 0, None) &&
      CopyDestStep(cfg, [], [(id, r)], now, ok, (id, e)) == Effect([], 0, None)
  {
    DecodeOwnName(e.clusterId, t);
  }
}
