# Aurora snapshot tool, modelled in Dafny

The Snapshot Tool for Aurora is a set of AWS Lambda functions. Each one makes
a single pass over an inventory of Aurora cluster snapshots, as follows.

- `take_snapshots_aurora` creates a snapshot of every cluster whose latest
  backup is older than INTERVAL hours.
- `share_snapshots_aurora` shares the tool's snapshots with DEST_ACCOUNT.
- `copy_snapshots_dest_aurora` takes the snapshots shared with it and moves
  them through three stages: copied into the account, then into DEST_REGION,
  then the local copy is deleted.
- `copy_snapshots_no_x_account_aurora` copies the tool's snapshots to
  DEST_REGION within the same account.
- `copy_snapshots_source_aurora` re-encrypts the tool's recent snapshots.
- `delete_old_snapshots_aurora` and `delete_old_snapshots_dest_aurora`
  delete the tool's snapshots once they are older than RETENTION_DAYS.

The tool keeps no state of its own. Everything it knows lives in snapshot
names of the form `<cluster>-YYYY-MM-DD-HH-MM` and in tags such as
`CreatedBy=Snapshot Tool for Aurora`.

The model has four layers.

1. **Identifier and timestamp codecs** (`timestamps.dfy`,
   `identifiers.dfy`). These cover calendar times, the fixed-width
   `%Y-%m-%d-%H-%M` format, building names, the two name decoders and
   reading the identifier back from an ARN.
2. **Filters and tag predicates** (`tags.dfy`, `inventory.dfy`,
   `filters.dfy`).
   - Python's ordered dicts become association lists.
   - Each `get_own_snapshots_*` / `get_shared_snapshots` function becomes
     one fold over the listing, driven by a per-filter decision.
   - `filter_clusters` is a loop.
3. **Decision rules**:
   - backup freshness (`backup.dfy`);
   - the request builders (`requests.dfy`);
   - the automated-backup path of `copy_or_create_db_snapshot`, with its
     module-level cache and the caller's tag list as classes.
4. **Handler loops** (`passes.dfy` and one module per lambda).
   - Each `lambda_handler` is a method.
   - The method walks the filtered dict and records every RDS call it
     attempts.
   - It adds the caught failures to a pending counter and stops at the
     first exception nothing catches.
   - Each method is proved equal to a pure specification: a step function
     folded by `Passes.Run`.
   - Lemmas then state what the pass does in terms of the snapshots.

The AWS provider is a boundary.

- Listings arrive as finished sequences.
- Tags are looked up per ARN.
- `re.search` is an abstract matcher.
- Whether each call returns or raises is decided by an oracle
  `Request -> bool`.
- The current time is a parameter, captured once per pass.

## Model

| member | source | states |
|---|---|---|
| Timestamps.Later | lambda/snapshots_tool_utils.py:300-302 | `max` of two times is one of them and is not before either |
| Timestamps.ParseFormatMinute | lambda/snapshots_tool_utils.py:257-271 | parsing `%Y-%m-%d-%H-%M` after formatting gives back the time truncated to the minute |
| Timestamps.ParseFormatHour | lambda/snapshots_tool_utils.py:274-282 | parsing `%Y-%m-%d-%H` from the first 13 characters of a formatted time gives it truncated to the hour |
| Timestamps.ToSecondsMonotone | lambda/snapshots_tool_utils.py:313-317 | the seconds scale used for ages preserves the order of valid times |
| Identifiers.GetTimestamp | lambda/snapshots_tool_utils.py:257-271 | a decoded time is a valid calendar time with zero seconds; no match or an unparsable capture gives None, never an error |
| Identifiers.GetTimestampNoMinute | lambda/snapshots_tool_utils.py:274-282 | a decoded time is valid with zero minutes and seconds; no match gives no result, and a capture strptime rejects is an error |
| Identifiers.DecodeOwnName | lambda/take_snapshots_aurora/lambda_function.py:50-72 | the name `<cluster>-<time>` the tool builds decodes back to that time truncated to the minute |
| Identifiers.DecodeOwnNameHour | lambda/snapshots_tool_utils.py:274-282 | the same name read by the hour decoder gives the time truncated to the hour |
| Identifiers.DecodersAgree | lambda/snapshots_tool_utils.py:257-282 | whenever the minute decoder succeeds, the hour decoder gives the same time truncated to the hour |
| Identifiers.DecodePrefixedName | lambda/take_snapshots_aurora/lambda_function.py:66-69 | `<ADD_NAME>-<cluster>-<time>` decodes to the time when the prefix does not contain `<cluster>-` |
| Identifiers.PrefixCollision | lambda/snapshots_tool_utils.py:260-262 | for any prefix in which `<cluster>-` starts within the prefix or at its closing dash, the leftmost match captures more than a timestamp, so nothing decodes |
| Identifiers.PrefixCollisionExample | lambda/snapshots_tool_utils.py:260-262 | prefix `x-a` with cluster `a` gives a name from which no time decodes |
| Identifiers.ArnSnapshotId | lambda/snapshots_tool_utils.py:87-91 | a result is the non-empty text after a `:cluster-snapshot:` occurrence in an ARN that starts `arn:aws:rds:` |
| Identifiers.ArnRoundTrip | lambda/snapshots_tool_utils.py:87-91 | the identifier read from a cluster-snapshot ARN is the one the ARN was built with |
| Tags.SearchTagCreatedIff | lambda/snapshots_tool_utils.py:54-66 | true iff the response has a TagList holding `CreatedBy=Snapshot Tool for Aurora`; a missing TagList gives False |
| Tags.SearchTagCopiedIff | lambda/snapshots_tool_utils.py:365-376 | true iff a readable tag is `CopiedBy=Snapshot Tool for Aurora`; a missing TagList gives False |
| Tags.SearchTagShareIff | lambda/snapshots_tool_utils.py:345-362 | true iff both `shareAndCopy=YES` and `CreatedBy` the tool are present |
| Tags.CheckSnapshotSharedIff | lambda/share_snapshots_aurora/lambda_function.py:59-71 | true iff a `restore` attribute lists DEST_ACCOUNT; malformed input gives False |
| Inventory.Find | lambda/snapshots_tool_utils.py:260 | dict lookup succeeds iff the key is present, and returns a value stored under it |
| Inventory.PutFind | lambda/snapshots_tool_utils.py:106-108 | assigning a key replaces its value and leaves the other keys' values alone |
| Inventory.PutKeys | lambda/snapshots_tool_utils.py:114-116 | assignment keeps the key order, appending a new key at the end |
| Filters.DecideSelected | lambda/snapshots_tool_utils.py:94-198 | one listed snapshot is kept iff it has the filter's SnapshotType and engine, and either matches the pattern or the pattern is a sentinel of that filter; source-side filters also need the CreatedBy tag |
| Filters.FilterSnapshots | lambda/snapshots_tool_utils.py:157-174 | the loop builds the dict of the specification fold, or stops at the first shared snapshot whose ARN does not decode |
| Filters.FilterRaises | lambda/snapshots_tool_utils.py:157-174 | a filter raises iff some listed snapshot it reaches has an undecodable ARN |
| Filters.OwnFilterNeverRaises | lambda/snapshots_tool_utils.py:94-154 | filters over manual snapshots never raise |
| Filters.FilterSelects | lambda/snapshots_tool_utils.py:94-198 | a key is in the dict iff some listed snapshot is selected under it; keys are unique and every value has the filter's shape (`KmsKeyId` iff StorageEncrypted) |
| Filters.FilterLastWins | lambda/snapshots_tool_utils.py:157-198 | when two snapshots share a key, the value is that of the last one listed |
| Filters.FilterItemsShaped | lambda/snapshots_tool_utils.py:177-198 | every value the filter writes has the fields that filter writes |
| Filters.FilterClusters | lambda/snapshots_tool_utils.py:69-84 | the loop returns the clusters the specification keeps |
| Filters.KeptClustersMembers | lambda/snapshots_tool_utils.py:69-84 | a cluster is kept iff its engine is supported and the pattern is ALL_CLUSTERS or matches its identifier |
| Filters.KeptClustersAppend | lambda/snapshots_tool_utils.py:69-84 | the filter keeps input order: filtering a concatenation concatenates the results |
| Requests.CopyRequests | lambda/snapshots_tool_utils.py:201-254 | both copies keep the identifier and read the source from the entry's Arn, and pass a KMS key iff the entry is encrypted; the local copy is tagged CopiedBy, the remote one sets SourceRegion and CopyTags |
| Passes.Conclude | lambda/take_snapshots_aurora/lambda_function.py:93-96 | a pass ends normally iff nothing escaped and pending is zero |
| Passes.RunAborts | lambda/copy_snapshots_dest_aurora/lambda_function.py:242-248 | a pass is aborted iff some candidate raises uncaught |
| Passes.RunStopsAtFirst | lambda/copy_snapshots_dest_aurora/lambda_function.py:194-248 | an aborted pass ends at the first candidate that raises; the ones before it did not |
| Passes.RunCalls | lambda/copy_snapshots_dest_aurora/lambda_function.py:194-248 | without an abort, the calls of a pass are exactly those of its candidates |
| Passes.RunPending | lambda/delete_old_snapshots_aurora/lambda_function.py:126-131 | without an abort, pending counts the candidates that failed |
| Passes.PassOutcome | lambda/share_snapshots_aurora/lambda_function.py:131-138 | for a pass that cannot abort, it raises SnapshotToolException with the failure count iff some candidate failed |
| Backup.LatestIsNewest | lambda/snapshots_tool_utils.py:285-305 | the latest timestamp is None iff no entry decodes; otherwise it is one of the decoded times and none is later |
| Backup.LatestRaises | lambda/snapshots_tool_utils.py:285-296 | get_latest_snapshot_ts raises iff some entry of the cluster has a name strptime rejects |
| Backup.LatestSnapshotTs | lambda/snapshots_tool_utils.py:285-305 | a latest timestamp is a valid time; the error case is exactly a rejected name of that cluster |
| Backup.RequiresBackupIff | lambda/snapshots_tool_utils.py:308-325 | a backup is due iff every decodable snapshot of the cluster is at least interval·3600 s old (≥, so the boundary is due); not due implies a latest time exists |
| Backup.OwnBackupAge | lambda/snapshots_tool_utils.py:308-325 | for a single snapshot the tool named at t, a backup is due iff now − t (truncated to the hour) ≥ interval·3600 s |
| Backup.AutomatedBackupCache.GetAll | lambda/snapshots_tool_utils.py:379-390 | the cache is filled from the listing only while it is empty and is returned |
| Backup.SnapshotTags.Append | lambda/snapshots_tool_utils.py:407-409 | the caller's tag list grows by exactly the given tag |
| Backup.BackupsOf | lambda/snapshots_tool_utils.py:418-419 | exactly the automated snapshots of the cluster are kept |
| Backup.LatestAutomated | lambda/snapshots_tool_utils.py:431-432 | the index is the last of the snapshots with the maximum SnapshotCreateTime, where a stable sort puts it |
| Backup.CopyNewest | lambda/snapshots_tool_utils.py:421-466 | no backups raises; otherwise the last of the newest is refused with the tags unchanged when too old (from one interval as written, from two as intended), else SourceDBClusterSnapshotIdentifier is appended and it is copied with CopyTags=False |
| Backup.NewestOutcome | lambda/snapshots_tool_utils.py:435-466 | the copy happens iff the newest backup is younger than one interval (as written) or two intervals (as intended); a refusal leaves the tags alone, a copy appends the source identifier |
| Backup.StaleWindowDiffers | lambda/snapshots_tool_utils.py:436-447 | a 30-hour-old backup with a 24-hour interval: as written the warning raises with the tags unchanged, as intended the backup is copied |
| Backup.CopyOrCreate | lambda/snapshots_tool_utils.py:393-466 | without automated backups, DBClusterIdentifier is appended and the cluster is snapshotted; with them, the cache is consulted and the newest backup of the cluster is copied or refused under the intended 2×interval window |
| Expiry.DeleteOldSnapshots | lambda/delete_old_snapshots_aurora/lambda_function.py:104-136 | the handler's calls and outcome are those of the specification pass |
| Expiry.ExpireOne | lambda/delete_old_snapshots_dest_aurora/lambda_function.py:116-134 | one snapshot: the delete in the lambda's region is the only call, made iff the snapshot is expired; pending is one iff that delete raised; nothing escapes |
| Expiry.ExpiryPass | lambda/delete_old_snapshots_dest_aurora/lambda_function.py:108-146 | a pass deletes exactly the snapshots that decode, carry the lambda's tag and are strictly older than RETENTION_DAYS; it raises iff some delete failed, with that count |
| Expiry.OwnSnapshotExpiry | lambda/delete_old_snapshots_aurora/lambda_function.py:111-128 | for a tagged snapshot the tool named, expiry is age > RETENTION_DAYS; exactly RETENTION_DAYS is kept |
| Share.ShareOne | lambda/share_snapshots_aurora/lambda_function.py:116-134 | one snapshot: KeyError iff 'Status' is missing; the share is the only call, made iff the snapshot is shareable; pending is one iff that share raised |
| Share.ShareSnapshots | lambda/share_snapshots_aurora/lambda_function.py:109-138 | the handler's calls and outcome are those of the specification pass |
| Share.SharePass | lambda/share_snapshots_aurora/lambda_function.py:116-138 | a pass shares exactly the available (any case), share-tagged snapshots via the restore attribute with DEST_ACCOUNT, makes no other call, and raises iff some share failed, with that count |
| TakeSnapshots.TakeOne | lambda/take_snapshots_aurora/lambda_function.py:48-91 | one cluster: escapes iff requires_backup cannot parse a name; the create stamped with `now` is the only call, made iff the cluster is due; pending is one iff it raised |
| TakeSnapshots.TakeSnapshots | lambda/take_snapshots_aurora/lambda_function.py:39-96 | the handler's calls and outcome are those of the specification pass |
| TakeSnapshots.TakePass | lambda/take_snapshots_aurora/lambda_function.py:43-96 | a pass aborts iff some kept cluster has a snapshot name strptime rejects; otherwise it creates exactly for the clusters that are due, with one `now` for all, and raises iff some create failed, with that count |
| TakeSnapshots.CreatedSnapshotName | lambda/take_snapshots_aurora/lambda_function.py:50-80 | the created name is `<cluster>-<stamp>`, both decoders read it back, and the CreatedOn tag carries the same stamp as CreatedBy and shareAndCopy=YES |
| TakeSnapshots.CreatedSnapshotDefers | lambda/take_snapshots_aurora/lambda_function.py:52 | once a snapshot named at `now` is listed, the cluster is not due again until interval hours after `now` truncated to the hour |
| NoXAccount.NoXOne | lambda/copy_snapshots_no_x_account_aurora/lambda_function.py:57-71 | one source snapshot: KeyError iff it is missing remotely and its own value lacks 'Status'; the remote copy is the only call, made iff it is copyable; otherwise pending is one iff it is missing and not copied or its copy raised |
| NoXAccount.CopyNoXAccount | lambda/copy_snapshots_no_x_account_aurora/lambda_function.py:43-77 | the handler's calls and outcome are those of the specification pass |
| NoXAccount.NoXPass | lambda/copy_snapshots_no_x_account_aurora/lambda_function.py:57-77 | a pass copies to DEST_REGION exactly the available snapshots that are local but not in the destination, makes only remote copies, and raises iff some copy failed or a snapshot was not yet available |
| NoXAccount.SourceWithinOwn | lambda/copy_snapshots_no_x_account_aurora/lambda_function.py:49-50 | unless PATTERN is ALL_CLUSTERS, every source candidate is also in the own-snapshots dict |
| CopyDest.CopyDestOne | lambda/copy_snapshots_dest_aurora/lambda_function.py:194-248 | one shared snapshot: its calls are exactly its stage's action; when nothing escapes, pending is one iff it is left pending; over dicts carrying 'Status', it escapes iff a due local delete raised |
| CopyDest.CopySnapshotsDest | lambda/copy_snapshots_dest_aurora/lambda_function.py:180-253 | the handler's calls and outcome are those of the specification pass |
| CopyDest.StepFollowsStage | lambda/copy_snapshots_dest_aurora/lambda_function.py:194-248 | a shared snapshot's calls, pending and abort are fixed by its stage: fresh, local only, both, or remote only |
| CopyDest.StageActions | lambda/copy_snapshots_dest_aurora/lambda_function.py:196-248 | at most one call per shared snapshot: a local copy under the shared id, a remote copy into DEST_REGION, or a delete of the local copy; with equal regions only local copies happen |
| CopyDest.CopyDestPass | lambda/copy_snapshots_dest_aurora/lambda_function.py:194-253 | for a shared listing whose ARNs decode (an undecodable one aborts the pass before any call, see Filters.FilterRaises), a pass aborts iff a due delete of a local copy fails; otherwise its calls are the stage actions and it raises iff some snapshot was left pending, with that count |
| CopyDest.Lineage | lambda/copy_snapshots_dest_aurora/lambda_function.py:196-248 | per stage, a fresh shared snapshot is copied locally (pending when regions differ), then copied remotely, then its local copy deleted, and then nothing |
| CopySource.ReencryptOne | lambda/copy_snapshots_source_aurora/lambda_function.py:58-89 | one snapshot: KeyError iff 'Status' is missing; otherwise the calls are the copy iff eligible, followed by the reEncrypt=NO tag iff the copy returned; pending is one iff the copy raised; it escapes iff that tag raised |
| CopySource.CopySnapshotsSource | lambda/copy_snapshots_source_aurora/lambda_function.py:52-99 | the handler's calls and outcome are those of the specification pass |
| CopySource.ReencryptStepCalls | lambda/copy_snapshots_source_aurora/lambda_function.py:62-89 | an eligible snapshot is copied to `<id>-reencrypted`; `reEncrypt=NO` is added iff that copy returned; a failed copy adds one to pending and writes no tag; only a failed tagging escapes |
| CopySource.ReencryptPass | lambda/copy_snapshots_source_aurora/lambda_function.py:58-99 | a pass aborts iff some copied snapshot could not be tagged, at the first one; otherwise it copies exactly the eligible snapshots, tags those whose copy returned, and raises iff some copy failed, with that count |
| CopySource.CandidatesCreatedByTool | lambda/copy_snapshots_source_aurora/lambda_function.py:55 | every candidate is a manual snapshot listed under that identifier and tagged CreatedBy the tool |
| CopySource.OwnSnapshotReencrypt | lambda/copy_snapshots_source_aurora/lambda_function.py:64-70 | for an available, wanted snapshot the tool named, the copy happens iff the age is < RETENTION_DAYS (strict) |

## Left out

- Python regular expressions. `re.search(pattern, text)` for PATTERN is an
  abstract matcher. The name decoders' `<cluster>-(.+)` and
  `<cluster>-(.+)-\d{2}` are written out for cluster ids without regex
  metacharacters.
- General `strptime`. Only zero-padded fields of the fixed width are
  parsed; `strptime` also accepts unpadded fields.
- Clocks and floating point.
  - `datetime.now()` is a parameter, one per pass. `requires_backup` reads
    the clock again in the source; the model uses the pass's `now`.
  - `days_difference` is compared as an exact number of seconds against
    RETENTION_DAYS·86400.
  - Microseconds are dropped.
  - In `copy_or_create_db_snapshot` the age of the newest backup
    (line 435, two UTC-aware times) is a number of seconds. The naive
    `now` of line 437 only feeds the warning, whose evaluation raises
    (see Findings).
- Pagination. Both `paginate_api_call` variants, including the `eval`
  string building and its misplaced `%`, are replaced by already-drained
  listings.
- boto3 clients, environment parsing with its defaults, logging. Settings
  are fields of `Requests.Config`.
- Reads. `describe_*` and `list_tags_for_resource` are assumed to return.
  Only the calls that change something go through the oracle.
- The oracle is deterministic. Two identical requests in one pass get the
  same answer.
- `search_tag_reencrypt` is not part of this model. It is an abstract tag
  test (`CopySource.TagTest`).
- The three-argument `copy_local` call in `copy_snapshots_source_aurora`
  has no matching definition. It is modelled as a `ReencryptCopy` request
  naming the target `<id>-reencrypted`, with no KMS or tag details.
- The first fetch-and-tag loop of `copy_snapshots_source_aurora` (lines
  42-51) only reads. With reads assumed to return, it has no effect and is
  not modelled.
- A `TagList` element whose `Key` or `Value` cannot be read is a single
  `Malformed` entry. A scan stops there and answers False, as the source's
  caught exception does. Which field raised is not modelled.
- `check_snapshot_shared` is modelled and characterised. No handler calls
  it.
- `CopyDest`: the `KeyError` a missing `StorageEncrypted` would raise is not
  modelled. The filters always write that field.
- `NoXAccount`: PATTERN `ALL_CLUSTERS` is a sentinel for the source filter
  but an ordinary pattern for the destination filter, as in the source; the
  model keeps that difference rather than resolving it.
- `copy_or_create_db_snapshot` returns the boto response. The model returns
  the request it sends, or the exception it raises.
- Backup.CopyOrCreate: uses the intended 2×interval window. Between one
  and two intervals the code as written raises AttributeError instead of
  copying; `Backup.CopyNewest` with `asWritten` models that (see
  Findings).
- Concurrency between overlapping invocations. The source has none.

## Findings

| source | as written | input that shows it | evidently intended | confidence | as-written member | corrected member |
|---|---|---|---|---|---|---|
| lambda/snapshots_tool_utils.py:436-447 | once the newest automated backup is at least one interval old, the warning message evaluates `(now - backup_age).total_seconds()`; `now - backup_age` is a datetime, which has no `total_seconds`, so AttributeError is raised before the 2× check and before the tag is appended (`CopyNewest` with `asWritten`) | BACKUP_INTERVAL 24, newest automated backup 30 hours old: AttributeError, tags unchanged | warn between one and two intervals and copy the backup; raise only from two intervals on | high, not executed | Backup.CopyNewest, Backup.StaleWindowDiffers | Backup.TooStale, Backup.NewestOutcome |
