/**
 * copy_snapshots_source_aurora: re-encrypt the tool's recent snapshots by
 * copying each one to `<identifier>-reencrypted` in the same region, and
 * tag the original reEncrypt=NO once its copy has been accepted.
 */
module CopySource {
  import opened Wrappers
  import opened Timestamps
  import opened Identifiers
  import opened Tags
  import opened Inventory
  import opened Filters
  import opened Requests
  import opened Passes

  /** search_tag_reencrypt: the lambda's tag test, which is not part of this model and stays a parameter. */
  type TagTest = TagResponse -> bool

  /** get_own_snapshots_source over the manual listing. */
  function SourceFilter(cfg: Config, matches: Matcher, tagsOf: TagLookup): Filter {
    Filter(OwnSource, cfg.pattern, matches, tagsOf)
  }

  /** The name of the re-encrypted copy. */
  function ReencryptedName(id: string): string {
    id + "-reencrypted"
  }

  /** The copy into this account and region under the re-encrypted name. */
  function ReencryptRequest(cfg: Config, id: string): Request {
    ReencryptCopy(cfg.region, id, ReencryptedName(id))
  }

  /** add_tags_to_resource(ResourceName=<arn>, Tags=[reEncrypt=NO]). */
  function MarkDone(cfg: Config, arn: string): Request {
    AddTags(cfg.region, arn, [ReEncryptNo])
  }

  /** The loop body for one (identifier, entry) of the filtered dict. */
  function ReencryptStep(cfg: Config, tagsOf: TagLookup, wanted: TagTest, now: DateTime, ok: Oracle, item: Item): Effect
    requires Valid(now)
  {
    var (id, e) := item;
    match e.status
    case None => Effect([], 0, Some(MissingStatus(id)))
    case Some(status) =>
      if !(Lower(status) == "available" && wanted(tagsOf(e.arn))) then Effect([], 0, None)
      else match GetTimestamp(id, e.clusterId)
        case None => Effect([], 0, None)
        case Some(created) =>
          if AgeSeconds(now, created) < cfg.retentionDays * 86400 then
            var copy := ReencryptRequest(cfg, id);
            if !ok(copy) then Effect([copy], 1, None)
            else
              var tag := MarkDone(cfg, e.arn);
              Effect([copy, tag], 0, if ok(tag) then None else Some(CallRaised(tag)))
          else Effect([], 0, None)
  }

  function ReencryptStepFor(cfg: Config, tagsOf: TagLookup, wanted: TagTest, now: DateTime, ok: Oracle): Item -> Effect
    requires Valid(now)
  {
    item => ReencryptStep(cfg, tagsOf, wanted, now, ok, item)
  }

  /** The whole pass over the listed snapshots. */
  function ReencryptSpec(cfg: Config, matches: Matcher, tagsOf: TagLookup, wanted: TagTest,
                         snapshots: seq<RawSnapshot>, now: DateTime, ok: Oracle): Tally
    requires Valid(now)
  {
    match FilterSpec(SourceFilter(cfg, matches, tagsOf), snapshots)
    case Err(s) => Tally([], 0, Some(UnparsableArn(s.arn)))
    case Ok(d) => Run(ReencryptStepFor(cfg, tagsOf, wanted, now, ok), d)
  }

  /**
   * The loop body of lambda_handler for one snapshot: a value without
   * 'Status' raises KeyError; otherwise an eligible snapshot is copied, and
   * tagged reEncrypt=NO only when the copy returned; a copy that raised adds
   * one to pending, and only a tagging that raises escapes.
   */
  method ReencryptOne(cfg: Config, tagsOf: TagLookup, wanted: TagTest, now: DateTime, ok: Oracle, id: string, e: Entry)
    returns (eff: Effect)
    requires Valid(now)
    ensures eff == ReencryptStep(cfg, tagsOf, wanted, now, ok, (id, e))
    ensures e.status.None? ==> eff == Effect([], 0, Some(MissingStatus(id)))
    ensures e.status.Some? ==>
              eff.calls == if !Eligible(cfg, tagsOf, wanted, now, (id, e)) then []
                           else if ok(ReencryptRequest(cfg, id)) then [ReencryptRequest(cfg, id), MarkDone(cfg, e.arn)]
                           else [ReencryptRequest(cfg, id)]
    ensures e.status.Some? ==> eff.pending == if CopyFailed(cfg, tagsOf, wanted, now, ok)((id, e)) then 1 else 0
    ensures e.status.Some? ==>
              eff.abort == if TagFailed(cfg, tagsOf, wanted, now, ok, (id, e)) then Some(CallRaised(MarkDone(cfg, e.arn))) else None
  {
    if e.status.None? {
      return Effect([], 0, Some(MissingStatus(id)));
    }
    eff := Effect([], 0, None);
    if Lower(e.status.value) == "available" && wanted(tagsOf(e.arn)) {
      var created := GetTimestamp(id, e.clusterId);
      if created.Some? && AgeSeconds(now, created.value) < cfg.retentionDays * 86400 {
        var copy := ReencryptRequest(cfg, id);
        if !ok(copy) {
          eff := Effect([copy], 1, None);
        } else {
          var tag := MarkDone(cfg, e.arn);
          eff := Effect([copy, tag], 0, if ok(tag) then None else Some(CallRaised(tag)));
        }
      }
    }
  }

  /** lambda_handler: the calls it attempts and how it ends. */
  method CopySnapshotsSource(cfg: Config, matches: Matcher, tagsOf: TagLookup, wanted: TagTest,
                             snapshots: seq<RawSnapshot>, now: DateTime, ok: Oracle)
    returns (calls: seq<Request>, outcome: Outcome)
    requires Valid(now)
    ensures calls == ReencryptSpec(cfg, matches, tagsOf, wanted, snapshots, now, ok).calls
    ensures outcome == Conclude(ReencryptSpec(cfg, matches, tagsOf, wanted, snapshots, now, ok))
  {
    var filtered := FilterSnapshots(SourceFilter(cfg, matches, tagsOf), snapshots);
    if filtered.Err? {
      return [], Aborted(UnparsableArn(filtered.error.arn));
    }
    var d := filtered.value;
    ghost var step := ReencryptStepFor(cfg, tagsOf, wanted, now, ok);
    calls := [];
    var pending: nat := 0;
    for i := 0 to |d|
      invariant Run(step, d[..i]) == Tally(calls, pending, None)
    {
      var (id, e) := d[i];
      var eff := ReencryptOne(cfg, tagsOf, wanted, now, ok, id, e);
      assert eff == step(d[i]);
      RunStep(step, d, i);
      if eff.abort.Some? {
        RunSticks(step, d, i + 1);
        return calls + eff.calls, Aborted(eff.abort.value);
      }
      calls := calls + eff.calls;
      pending := pending + eff.pending;
    }
    assert d[..|d|] == d;
    outcome := if pending > 0 then Pending(pending) else Done;
  }

  /** Available in any letter case, wanted by the tag test, named with a decodable time, and younger than RETENTION_DAYS. */
  predicate Eligible(cfg: Config, tagsOf: TagLookup, wanted: TagTest, now: DateTime, item: Item)
    requires Valid(now)
  {
    var created := GetTimestamp(item.0, item.1.clusterId);
    item.1.status.Some? && Lower(item.1.status.value) == "available" && wanted(tagsOf(item.1.arn)) &&
    created.Some? && AgeSeconds(now, created.value) < cfg.retentionDays * 86400
  }

  /** An eligible snapshot whose copy raised: caught, and counted as pending. */
  function CopyFailed(cfg: Config, tagsOf: TagLookup, wanted: TagTest, now: DateTime, ok: Oracle): Item -> bool
    requires Valid(now)
  {
    item => Eligible(cfg, tagsOf, wanted, now, item) && !ok(ReencryptRequest(cfg, item.0))
  }

  /** An eligible snapshot whose copy returned but whose tagging raised: nothing catches it. */
  predicate TagFailed(cfg: Config, tagsOf: TagLookup, wanted: TagTest, now: DateTime, ok: Oracle, item: Item)
    requires Valid(now)
  {
    Eligible(cfg, tagsOf, wanted, now, item) && ok(ReencryptRequest(cfg, item.0)) && !ok(MarkDone(cfg, item.1.arn))
  }

  /**
   * One snapshot: an eligible one is copied to `<identifier>-reencrypted`
   * in REGION, and its ARN is tagged reEncrypt=NO exactly when that copy
   * returned; a copy that raised adds one to pending and writes no tag.
   * Anything else makes no call. Only a tagging that raises escapes.
   */
  lemma ReencryptStepCalls(cfg: Config, tagsOf: TagLookup, wanted: TagTest, now: DateTime, ok: Oracle, item: Item)
    requires Valid(now) && item.1.status.Some?
    ensures var eff := ReencryptStep(cfg, tagsOf, wanted, now, ok, item);
      var copy := ReencryptRequest(cfg, item.0);
      (eff.calls != [] <==> Eligible(cfg, tagsOf, wanted, now, item)) &&
      (eff.calls != [] ==> eff.calls[0] == copy && copy.target == item.0 + "-reencrypted" && copy.region == cfg.region) &&
      (|eff.calls| == 2 <==> Eligible(cfg, tagsOf, wanted, now, item) && ok(copy)) &&
      (|eff.calls| == 2 ==> eff.calls[1] == AddTags(cfg.region, item.1.arn, [Tag("reEncrypt", "NO")])) &&
      |eff.calls| <= 2 &&
      (eff.pending == 1 <==> CopyFailed(cfg, tagsOf, wanted, now, ok)(item)) && eff.pending <= 1 &&
      (eff.abort.Some? <==> TagFailed(cfg, tagsOf, wanted, now, ok, item)) &&
      (eff.abort.Some? ==> eff.abort == Some(CallRaised(MarkDone(cfg, item.1.arn))))
  {
  }

  /** A call an eligible snapshot makes: its copy, and its tagging once the copy returned. */
  predicate CallOf(cfg: Config, tagsOf: TagLookup, wanted: TagTest, now: DateTime, ok: Oracle, item: Item, r: Request)
    requires Valid(now)
  {
    Eligible(cfg, tagsOf, wanted, now, item) &&
    (r == ReencryptRequest(cfg, item.0) || (ok(ReencryptRequest(cfg, item.0)) && r == MarkDone(cfg, item.1.arn)))
  }

  /** The per-snapshot facts the pass is assembled from, for every value the filter writes. */
  lemma StepFacts(cfg: Config, tagsOf: TagLookup, wanted: TagTest, now: DateTime, ok: Oracle, item: Item)
    requires Valid(now) && item.1.status.Some?
    ensures var step := ReencryptStepFor(cfg, tagsOf, wanted, now, ok);
      (step(item).abort.Some? <==> TagFailed(cfg, tagsOf, wanted, now, ok, item)) &&
      (step(item).abort.Some? ==> step(item).abort == Some(CallRaised(MarkDone(cfg, item.1.arn)))) &&
      step(item).pending == (if CopyFailed(cfg, tagsOf, wanted, now, ok)(item) then 1 else 0) &&
      forall r :: r in step(item).calls <==> CallOf(cfg, tagsOf, wanted, now, ok, item, r)
  {
    assert ReencryptStepFor(cfg, tagsOf, wanted, now, ok)(item) == ReencryptStep(cfg, tagsOf, wanted, now, ok, item);
    ReencryptStepCalls(cfg, tagsOf, wanted, now, ok, item);
  }

  /** Over a dict whose values all carry 'Status', the run aborts at the first snapshot whose tagging raised. */
  lemma AbortOverDict(cfg: Config, tagsOf: TagLookup, wanted: TagTest, now: DateTime, ok: Oracle, d: Dict)
    requires Valid(now) && forall i | 0 <= i < |d| :: d[i].1.status.Some?
    ensures var t := Run(ReencryptStepFor(cfg, tagsOf, wanted, now, ok), d);
      (t.aborted.Some? <==> exists i | 0 <= i < |d| :: TagFailed(cfg, tagsOf, wanted, now, ok, d[i])) &&
      (t.aborted.Some? ==> exists i | 0 <= i < |d| ::
        TagFailed(cfg, tagsOf, wanted, now, ok, d[i]) && Conclude(t) == Aborted(CallRaised(MarkDone(cfg, d[i].1.arn))) &&
        forall j | 0 <= j < i :: !TagFailed(cfg, tagsOf, wanted, now, ok, d[j]))
  {
    var step := ReencryptStepFor(cfg, tagsOf, wanted, now, ok);
    forall i | 0 <= i < |d|
      ensures step(d[i]).abort.Some? <==> TagFailed(cfg, tagsOf, wanted, now, ok, d[i])
      ensures step(d[i]).abort.Some? ==> step(d[i]).abort == Some(CallRaised(MarkDone(cfg, d[i].1.arn)))
    {
      StepFacts(cfg, tagsOf, wanted, now, ok, d[i]);
    }
    RunAborts(step, d);
    if Run(step, d).aborted.Some? {
      RunStopsAtFirst(step, d);
      var i :| 0 <= i < |d| &&
        Run(step, d) == Run(step, d[..i + 1]) && Run(step, d).aborted == step(d[i]).abort &&
        forall j | 0 <= j < i :: step(d[j]).abort.None?;
      assert TagFailed(cfg, tagsOf, wanted, now, ok, d[i]);
      assert Conclude(Run(step, d)) == Aborted(CallRaised(MarkDone(cfg, d[i].1.arn)));
    }
  }

  /** Over a dict whose values all carry 'Status', a run that does not abort makes the eligible calls and counts the failed copies. */
  lemma CompleteOverDict(cfg: Config, tagsOf: TagLookup, wanted: TagTest, now: DateTime, ok: Oracle, d: Dict)
    requires Valid(now) && forall i | 0 <= i < |d| :: d[i].1.status.Some?
    ensures var t := Run(ReencryptStepFor(cfg, tagsOf, wanted, now, ok), d);
      var failed := Count(CopyFailed(cfg, tagsOf, wanted, now, ok), d);
      t.aborted.None? ==>
        (forall r :: r in t.calls <==> (exists i | 0 <= i < |d| :: CallOf(cfg, tagsOf, wanted, now, ok, d[i], r))) &&
        Conclude(t) == (if failed > 0 then Pending(failed) else Done)
  {
    var step := ReencryptStepFor(cfg, tagsOf, wanted, now, ok);
    var failed := CopyFailed(cfg, tagsOf, wanted, now, ok);
    if Run(step, d).aborted.None? {
      forall i | 0 <= i < |d|
        ensures step(d[i]).pending == if failed(d[i]) then 1 else 0
        ensures forall r :: r in step(d[i]).calls <==> CallOf(cfg, tagsOf, wanted, now, ok, d[i], r)
      {
        StepFacts(cfg, tagsOf, wanted, now, ok, d[i]);
      }
      RunPending(step, failed, d);
      RunCalls(step, d);
      CountPositive(failed, d);
    }
  }

  /**
   * A pass over the filtered dict: it raises an uncaught exception exactly
   * when some eligible snapshot was copied but could not be tagged, and then
   * at the first such one; otherwise it copies exactly the eligible
   * snapshots, tags exactly those whose copy returned, and raises
   * SnapshotToolException with the number of copies that raised.
   */
  lemma ReencryptPass(cfg: Config, matches: Matcher, tagsOf: TagLookup, wanted: TagTest,
                      snapshots: seq<RawSnapshot>, now: DateTime, ok: Oracle)
    requires Valid(now)
    ensures FilterSpec(SourceFilter(cfg, matches, tagsOf), snapshots).Ok?
    ensures var d := FilterSpec(SourceFilter(cfg, matches, tagsOf), snapshots).value;
      var t := ReencryptSpec(cfg, matches, tagsOf, wanted, snapshots, now, ok);
      (t.aborted.Some? <==> exists i | 0 <= i < |d| :: TagFailed(cfg, tagsOf, wanted, now, ok, d[i])) &&
      (t.aborted.Some? ==> exists i | 0 <= i < |d| ::
        TagFailed(cfg, tagsOf, wanted, now, ok, d[i]) && Conclude(t) == Aborted(CallRaised(MarkDone(cfg, d[i].1.arn))) &&
        forall j | 0 <= j < i :: !TagFailed(cfg, tagsOf, wanted, now, ok, d[j]))
    ensures var d := FilterSpec(SourceFilter(cfg, matches, tagsOf), snapshots).value;
      var t := ReencryptSpec(cfg, matches, tagsOf, wanted, snapshots, now, ok);
      var failed := Count(CopyFailed(cfg, tagsOf, wanted, now, ok), d);
      t.aborted.None? ==>
        (forall r :: r in t.calls <==> (exists i | 0 <= i < |d| :: CallOf(cfg, tagsOf, wanted, now, ok, d[i], r))) &&
        Conclude(t) == (if failed > 0 then Pending(failed) else Done)
  {
    var f := SourceFilter(cfg, matches, tagsOf);
    OwnFilterNeverRaises(f, snapshots);
    FilterItemsShaped(f, snapshots);
    var d := FilterSpec(f, snapshots).value;
    forall i | 0 <= i < |d|
      ensures d[i].1.status.Some?
    {
      assert WellShaped(f.kind, d[i].1);
    }
    assert Run(ReencryptStepFor(cfg, tagsOf, wanted, now, ok), d) == ReencryptSpec(cfg, matches, tagsOf, wanted, snapshots, now, ok);
    AbortOverDict(cfg, tagsOf, wanted, now, ok, d);
    CompleteOverDict(cfg, tagsOf, wanted, now, ok, d);
  }

  /**
   * Every snapshot the pass considers was listed under that identifier and
   * carries CreatedBy=Snapshot Tool for Aurora.
   */
  lemma CandidatesCreatedByTool(cfg: Config, matches: Matcher, tagsOf: TagLookup, snapshots: seq<RawSnapshot>, k: string)
    requires FilterSpec(SourceFilter(cfg, matches, tagsOf), snapshots).Ok?
    requires k in Keys(FilterSpec(SourceFilter(cfg, matches, tagsOf), snapshots).value)
    ensures exists i | 0 <= i < |snapshots| ::
      snapshots[i].identifier == k && SearchTagCreated(tagsOf(snapshots[i].arn)) && snapshots[i].origin == Manual
  {
    var f := SourceFilter(cfg, matches, tagsOf);
    FilterSelects(f, snapshots, k);
    var i :| 0 <= i < |snapshots| && Selected(f, snapshots[i]) && KeyOf(f.kind, snapshots[i]) == Some(k);
    assert snapshots[i].identifier == k;
  }

  /**
   * For a snapshot the tool named `<cluster>-<stamp>` at time t, the age is
   * measured from t truncated to the minute and the comparison is strict:
   * one exactly RETENTION_DAYS old is not copied.
   */
  lemma OwnSnapshotReencrypt(cfg: Config, tagsOf: TagLookup, wanted: TagTest, now: DateTime, e: Entry, t: DateTime)
    requires Valid(now) && Valid(t) && e.status == Some("available") && wanted(tagsOf(e.arn))
    ensures var id := NewSnapshotIdentifier("NONE", e.clusterId, FormatMinute(t));
      Eligible(cfg, tagsOf, wanted, now, (id, e)) <==> AgeSeconds(now, TruncateToMinute(t)) < cfg.retentionDays * 86400
  {
    DecodeOwnName(e.clusterId, t);
    assert Lower("available") == "available";
  }
}
