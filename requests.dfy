/**
 * The calls the tool makes to RDS, as values. A pass records every call it
 * attempts; whether a call returns or raises is decided by an oracle.
 */
module Requests {
  import opened Wrappers
  import opened Tags
  import opened Inventory

  /** The settings a lambda reads from its environment at start-up. */
  datatype Config = Config(
    region: string,        // REGION: REGION_OVERRIDE, else AWS_DEFAULT_REGION
    destRegion: string,    // DEST_REGION
    kmsKeySource: string,  // KMS_KEY_SOURCE_REGION
    kmsKeyDest: string,    // KMS_KEY_DEST_REGION
    destAccount: string,   // DEST_ACCOUNT
    pattern: string,       // PATTERN or SNAPSHOT_PATTERN
    retentionDays: int,    // RETENTION_DAYS
    backupInterval: int,   // INTERVAL, in hours
    addName: string)       // ADD_NAME

  datatype Request =
    | CopySnapshot(region: string, source: string, target: string, kmsKeyId: Option<string>,
                   tags: seq<Tag>, sourceRegion: Option<string>, copyTags: Option<bool>)
    | CreateSnapshot(region: string, identifier: string, clusterId: string, tags: seq<Tag>)
    | DeleteSnapshot(region: string, identifier: string)
    | ShareSnapshot(region: string, identifier: string, attribute: string, account: string)
    | AddTags(region: string, arn: string, tags: seq<Tag>)
    | ReencryptCopy(region: string, identifier: string, target: string)

  /** True when the call returns, False when it raises. */
  type Oracle = Request -> bool

  /** An exception no try/except of the pass catches. */
  datatype Failure =
    | UnparsableArn(arn: string)               // get_snapshot_identifier found no match
    | UnparsableTimestamp(identifier: string)  // strptime in get_timestamp_no_minute raised
    | MissingStatus(identifier: string)        // a dict value without 'Status' was read
    | CallRaised(request: Request)             // a call made outside any try raised

  /** copy_local: copy into this account and region, under the same identifier. */
  function CopyLocal(cfg: Config, identifier: string, e: Entry): Request {
    CopySnapshot(cfg.region, e.arn, identifier,
                 if e.encrypted == Some(true) then Some(cfg.kmsKeySource) else None,
                 [CopiedByTool], None, None)
  }

  /** copy_remote: copy from REGION into DEST_REGION, under the same identifier, keeping the tags. */
  function CopyRemote(cfg: Config, identifier: string, e: Entry): Request {
    CopySnapshot(cfg.destRegion, e.arn, identifier,
                 if e.encrypted == Some(true) then Some(cfg.kmsKeyDest) else None,
                 [], Some(cfg.region), Some(true))
  }

  /**
   * Both copies keep the identifier, read the source from the entry's 'Arn',
   * and pass a KMS key exactly when the entry is encrypted; the local copy
   * marks itself with CopiedBy, the remote one copies the tags across.
   */
  lemma CopyRequests(cfg: Config, identifier: string, e: Entry)
    ensures var l, r := CopyLocal(cfg, identifier, e), CopyRemote(cfg, identifier, e);
      l.target == identifier && r.target == identifier && l.source == e.arn && r.source == e.arn &&
      (l.kmsKeyId.Some? <==> e.encrypted == Some(true)) && (r.kmsKeyId.Some? <==> e.encrypted == Some(true)) &&
      l.region == cfg.region && r.region == cfg.destRegion && r.sourceRegion == Some(cfg.region) &&
      CopiedByTool in l.tags && r.copyTags == Some(true)
  {
  }
}
