/**
 * Backup freshness (get_latest_snapshot_ts, requires_backup) and the
 * automated-backup path (get_all_automated_snapshots,
 * copy_or_create_db_snapshot).
 */
module Backup {
  import opened Wrappers
  import opened Timestamps
  import opened Identifiers
  import opened Tags
  import opened Inventory
  import opened Requests

  /** How a snapshot name reads as an hour: get_timestamp_no_minute for one cluster. */
  type HourDecoder = string -> HourDecode

  function HoursOf(clusterId: string): HourDecoder {
    id => GetTimestampNoMinute(id, clusterId)
  }

  /** The i-th entry belongs to the cluster and its name decodes to an hour. */
  predicate DecodesAt(decode: HourDecoder, clusterId: string, d: Dict, i: int)
    requires 0 <= i < |d|
  {
    d[i].1.clusterId == clusterId && decode(d[i].0).Hour?
  }

  /** The i-th entry belongs to the cluster and strptime raises on its name. */
  predicate RaisesAt(decode: HourDecoder, clusterId: string, d: Dict, i: int)
    requires 0 <= i < |d|
  {
    d[i].1.clusterId == clusterId && decode(d[i].0).Unparsable?
  }

  /** The loop of get_latest_snapshot_ts, over any decoder. */
  function Latest(decode: HourDecoder, clusterId: string, d: Dict): Result<Option<DateTime>, string> {
    if |d| == 0 then Ok(None)
    else match Latest(decode, clusterId, d[..|d| - 1])
      case Err(id) => Err(id)
      case Ok(latest) =>
        var (id, e) := d[|d| - 1];
        if e.clusterId != clusterId then Ok(latest)
        else match decode(id)
          case NoMatch => Ok(latest)
          case Unparsable => Err(id)
          case Hour(t) => Ok(Some(if latest.None? then t else Later(latest.value, t)))
  }

  /** The result is one of the decoded times and no decoded time is later. */
  lemma {:induction false} LatestIsNewest(decode: HourDecoder, clusterId: string, d: Dict)
    requires Latest(decode, clusterId, d).Ok?
    ensures var r := Latest(decode, clusterId, d).value;
      (r.None? <==> forall i | 0 <= i < |d| :: !DecodesAt(decode, clusterId, d, i)) &&
      (r.Some? ==> exists i | 0 <= i < |d| :: DecodesAt(decode, clusterId, d, i) && decode(d[i].0).t == r.value) &&
      (r.Some? ==> forall i | 0 <= i < |d| && DecodesAt(decode, clusterId, d, i) :: !Before(r.value, decode(d[i].0).t))
  {
    if |d| > 0 {
      var init, last := d[..|d| - 1], |d| - 1;
      LatestIsNewest(decode, clusterId, init);
      assert forall i | 0 <= i < |init| :: init[i] == d[i];
      assert forall i | 0 <= i < |init| :: DecodesAt(decode, clusterId, init, i) == DecodesAt(decode, clusterId, d, i);
      var latest := Latest(decode, clusterId, init).value;
      if DecodesAt(decode, clusterId, d, last) {
        var t := decode(d[last].0).t;
        if latest.Some? {
          var r := Later(latest.value, t);
          assert Latest(decode, clusterId, d).value == Some(r);
          forall i | 0 <= i < |d| && DecodesAt(decode, clusterId, d, i)
            ensures !Before(r, decode(d[i].0).t)
          {
            if i < last {
              NotBeforeTransitive(r, latest.value, decode(d[i].0).t);
            }
          }
          if r == t {
            assert decode(d[last].0).t == r;
          } else {
            var j :| 0 <= j < |init| && DecodesAt(decode, clusterId, init, j) && decode(init[j].0).t == latest.value;
            assert DecodesAt(decode, clusterId, d, j) && decode(d[j].0).t == r;
          }
        } else {
          assert Latest(decode, clusterId, d).value == Some(t);
          assert forall i | 0 <= i < |d| && DecodesAt(decode, clusterId, d, i) :: i == last;
        }
      } else {
        assert Latest(decode, clusterId, d).value == latest;
        if latest.Some? {
          var j :| 0 <= j < |init| && DecodesAt(decode, clusterId, init, j) && decode(init[j].0).t == latest.value;
          assert DecodesAt(decode, clusterId, d, j);
        }
      }
    }
  }

  /** The loop raises exactly when strptime raises on one of the cluster's names. */
  lemma {:induction false} LatestRaises(decode: HourDecoder, clusterId: string, d: Dict)
    ensures Latest(decode, clusterId, d).Err? <==> exists i | 0 <= i < |d| :: RaisesAt(decode, clusterId, d, i)
  {
    if |d| > 0 {
      var init := d[..|d| - 1];
      LatestRaises(decode, clusterId, init);
      assert forall i | 0 <= i < |init| :: init[i] == d[i];
      assert forall i | 0 <= i < |init| :: RaisesAt(decode, clusterId, init, i) == RaisesAt(decode, clusterId, d, i);
      if Latest(decode, clusterId, init).Err? {
        var j :| 0 <= j < |init| && RaisesAt(decode, clusterId, init, j);
        assert RaisesAt(decode, clusterId, d, j);
      } else if RaisesAt(decode, clusterId, d, |d| - 1) {
        assert Latest(decode, clusterId, d).Err?;
      }
    }
  }

  /**
   * get_latest_snapshot_ts: the newest hour-truncated time among the
   * cluster's snapshots, None when none decodes, Err(identifier) at the
   * first name on which strptime raises.
   */
  function LatestSnapshotTs(clusterId: string, d: Dict): (r: Result<Option<DateTime>, string>)
    ensures r.Ok? && r.value.Some? ==> Valid(r.value.value)
    ensures r.Err? <==> exists i | 0 <= i < |d| :: RaisesAt(HoursOf(clusterId), clusterId, d, i)
  {
    var r := Latest(HoursOf(clusterId), clusterId, d);
    LatestRaises(HoursOf(clusterId), clusterId, d);
    if r.Ok? then LatestIsNewest(HoursOf(clusterId), clusterId, d); r else r
  }

  /** requires_backup: due when nothing decodes or the newest is at least `interval` hours old. */
  function RequiresBackup(interval: int, clusterId: string, d: Dict, now: DateTime): Result<bool, string>
    requires Valid(now)
  {
    match LatestSnapshotTs(clusterId, d)
    case Err(id) => Err(id)
    case Ok(None) => Ok(true)
    case Ok(Some(latest)) => Ok(AgeSeconds(now, latest) >= interval * 3600)
  }

  /**
   * A cluster is due exactly when every snapshot of it that decodes is at
   * least `interval` hours old; the threshold itself is due. It is found
   * not due only when a latest time exists.
   */
  lemma RequiresBackupIff(interval: int, clusterId: string, d: Dict, now: DateTime)
    requires Valid(now) && RequiresBackup(interval, clusterId, d, now).Ok?
    ensures RequiresBackup(interval, clusterId, d, now).value <==>
      forall i | 0 <= i < |d| && DecodesAt(HoursOf(clusterId), clusterId, d, i) ::
        AgeSeconds(now, GetTimestampNoMinute(d[i].0, clusterId).t) >= interval * 3600
    ensures !RequiresBackup(interval, clusterId, d, now).value ==> LatestSnapshotTs(clusterId, d).value.Some?
  {
    LatestIsNewest(HoursOf(clusterId), clusterId, d);
    var r := LatestSnapshotTs(clusterId, d).value;
    if r.Some? {
      var latest := r.value;
      forall i | 0 <= i < |d| && DecodesAt(HoursOf(clusterId), clusterId, d, i)
        ensures ToSeconds(GetTimestampNoMinute(d[i].0, clusterId).t) <= ToSeconds(latest)
      {
        var t := GetTimestampNoMinute(d[i].0, clusterId).t;
        if t != latest {
          assert Before(t, latest);
          ToSecondsMonotone(t, latest);
        }
      }
    }
  }

  /**
   * For a snapshot the tool named, freshness is measured from its creation
   * time truncated to the hour.
   */
  lemma OwnBackupAge(interval: int, clusterId: string, e: Entry, t: DateTime, now: DateTime)
    requires Valid(t) && Valid(now) && e.clusterId == clusterId
    ensures RequiresBackup(interval, clusterId, [(NewSnapshotIdentifier("NONE", clusterId, FormatMinute(t)), e)], now)
      == Ok(AgeSeconds(now, TruncateToHour(t)) >= interval * 3600)
  {
    var id := NewSnapshotIdentifier("NONE", clusterId, FormatMinute(t));
    var d := [(id, e)];
    DecodeOwnNameHour(clusterId, t);
    assert d[..|d| - 1] == [];
    assert HoursOf(clusterId)(id) == Hour(TruncateToHour(t));
    assert Latest(HoursOf(clusterId), clusterId, d[..|d| - 1]) == Ok(None);
    assert Latest(HoursOf(clusterId), clusterId, d) == Ok(Some(TruncateToHour(t)));
  }

  // ---------------------------------------------------------------------
  // The automated-backup path.

  /** _AUTOMATED_BACKUP_LIST, filled on first use. */
  class AutomatedBackupCache {
    var backups: seq<RawSnapshot>

    constructor ()
      ensures backups == []
    {
      backups := [];
    }

    /** get_all_automated_snapshots: `listed` is what the listing call returns; it is read only while the cache is empty. */
    method GetAll(listed: seq<RawSnapshot>) returns (all: seq<RawSnapshot>)
      modifies this
      ensures backups == (if old(backups) == [] then listed else old(backups))
      ensures all == backups
    {
      if |backups| == 0 {
        backups := listed;
      }
      all := backups;
    }
  }

  /** The caller's snapshot_tags list, which copy_or_create_db_snapshot appends to. */
  class SnapshotTags {
    var items: seq<Tag>

    constructor (items: seq<Tag>)
      ensures this.items == items
    {
      this.items := items;
    }

    method Append(t: Tag)
      modifies this
      ensures items == old(items) + [t]
    {
      items := items + [t];
    }
  }

  /** The listed automated backups whose cluster is `clusterId`, in listing order. */
  function BackupsOf(clusterId: string, xs: seq<RawSnapshot>): (r: seq<RawSnapshot>)
    ensures |r| <= |xs|
    ensures forall x :: x in r <==> x in xs && x.clusterId == clusterId
  {
    if |xs| == 0 then []
    else
      assert xs == xs[..|xs| - 1] + [xs[|xs| - 1]];
      BackupsOf(clusterId, xs[..|xs| - 1]) + (if xs[|xs| - 1].clusterId == clusterId then [xs[|xs| - 1]] else [])
  }

  /** `k` is where a stable sort by SnapshotCreateTime puts last: the last of the newest. */
  predicate IsLastNewest(xs: seq<RawSnapshot>, k: int) {
    0 <= k < |xs| &&
    (forall j | 0 <= j < |xs| :: xs[j].createTime <= xs[k].createTime) &&
    (forall j | k < j < |xs| :: xs[j].createTime < xs[k].createTime)
  }

  /** sort(key=SnapshotCreateTime) then [-1]. */
  method LatestAutomated(xs: seq<RawSnapshot>) returns (k: nat)
    requires |xs| > 0
    ensures IsLastNewest(xs, k)
  {
    k := 0;
    for i := 1 to |xs|
      invariant k < i
      invariant forall j | 0 <= j < i :: xs[j].createTime <= xs[k].createTime
      invariant forall j | k < j < i :: xs[j].createTime < xs[k].createTime
    {
      if xs[i].createTime >= xs[k].createTime {
        k := i;
      }
    }
  }

  datatype BackupFailure =
    | NoAutomatedBackup(clusterId: string)
    | StaleAutomatedBackup(identifier: string, ageSeconds: int)
    | WarningRaised(identifier: string, ageSeconds: int)

  /**
   * The code as written: once the newest backup is at least one interval
   * old, composing the warning subtracts the age from a naive datetime and
   * asks the resulting datetime for total_seconds(), which raises
   * AttributeError before the 2x check is reached.
   */
  predicate WarningRaisesAsWritten(ageSeconds: int, interval: int) {
    ageSeconds >= interval * 60 * 60
  }

  /**
   * The intended refusal: the newest automated backup is too old to copy.
   * The 2x window check sits inside the 1x one, as in the source.
   */
  predicate TooStale(ageSeconds: int, interval: int) {
    ageSeconds >= interval * 60 * 60 && ageSeconds >= interval * 2 * 60 * 60
  }

  /**
   * The outcome for a cluster with automated backups `mine`: the last of the
   * newest is refused when it is too old, otherwise it is copied under the
   * new identifier with its own identifier appended to the tags. With
   * `asWritten` the warning raises from one interval on; without it only
   * the intended 2x refusal applies.
   */
  ghost predicate CopiesNewest(mine: seq<RawSnapshot>, r: Result<Request, BackupFailure>, before: seq<Tag>, after: seq<Tag>,
                               region: string, snapshotIdentifier: string, backupInterval: int, nowSeconds: int,
                               asWritten: bool)
  {
    exists k | 0 <= k < |mine| && IsLastNewest(mine, k) ::
      var age := nowSeconds - mine[k].createTime;
      if asWritten && WarningRaisesAsWritten(age, backupInterval) then
        r == Err(WarningRaised(mine[k].identifier, age)) && after == before
      else if TooStale(age, backupInterval) then
        r == Err(StaleAutomatedBackup(mine[k].identifier, age)) && after == before
      else
        after == before + [Tag("SourceDBClusterSnapshotIdentifier", mine[k].identifier)] &&
        r == Ok(CopySnapshot(region, mine[k].identifier, snapshotIdentifier, None, after, None, Some(false)))
  }

  /**
   * The automated branch of copy_or_create_db_snapshot, once the cluster's
   * automated backups `mine` are known; `asWritten` selects the code as
   * written over the intended 2x window.
   */
  method CopyNewest(tags: SnapshotTags, mine: seq<RawSnapshot>, region: string, clusterId: string,
                    snapshotIdentifier: string, backupInterval: int, nowSeconds: int, asWritten: bool)
    returns (r: Result<Request, BackupFailure>)
    modifies tags
    ensures mine == [] ==> r == Err(NoAutomatedBackup(clusterId)) && tags.items == old(tags.items)
    ensures mine != [] ==>
      CopiesNewest(mine, r, old(tags.items), tags.items, region, snapshotIdentifier, backupInterval, nowSeconds, asWritten)
  {
    if |mine| <= 0 {
      return Err(NoAutomatedBackup(clusterId));
    }
    var k := LatestAutomated(mine);
    var latest := mine[k];
    var age := nowSeconds - latest.createTime;
    if age >= backupInterval * 60 * 60 {
      if asWritten {
        return Err(WarningRaised(latest.identifier, age));
      }
      if age >= backupInterval * 2 * 60 * 60 {
        r := Err(StaleAutomatedBackup(latest.identifier, age));
        assert TooStale(age, backupInterval);
        return;
      }
    }
    assert !TooStale(age, backupInterval);
    tags.Append(Tag("SourceDBClusterSnapshotIdentifier", latest.identifier));
    r := Ok(CopySnapshot(region, latest.identifier, snapshotIdentifier, None, tags.items, None, Some(false)));
  }

  /** Every last-of-the-newest position holds the same creation time. */
  lemma NewestTimeUnique(xs: seq<RawSnapshot>, k: int, k': int)
    requires IsLastNewest(xs, k) && IsLastNewest(xs, k')
    ensures xs[k].createTime == xs[k'].createTime
  {
  }

  /**
   * The copy happens exactly while the newest backup is younger than the
   * threshold: one interval as written, two intervals as intended; a
   * refusal leaves the tags alone.
   */
  lemma NewestOutcome(mine: seq<RawSnapshot>, r: Result<Request, BackupFailure>, before: seq<Tag>, after: seq<Tag>,
                      region: string, snapshotIdentifier: string, backupInterval: int, nowSeconds: int,
                      asWritten: bool, k: int)
    requires backupInterval >= 0 && IsLastNewest(mine, k)
    requires CopiesNewest(mine, r, before, after, region, snapshotIdentifier, backupInterval, nowSeconds, asWritten)
    ensures var age := nowSeconds - mine[k].createTime;
      r.Ok? <==> age < (if asWritten then backupInterval else 2 * backupInterval) * 60 * 60
    ensures r.Err? ==> after == before
    ensures r.Ok? ==> r.value.CopySnapshot? && after == before + [Tag("SourceDBClusterSnapshotIdentifier", r.value.source)]
  {
    var k' :| 0 <= k' < |mine| && IsLastNewest(mine, k') &&
      var age := nowSeconds - mine[k'].createTime;
      if asWritten && WarningRaisesAsWritten(age, backupInterval) then
        r == Err(WarningRaised(mine[k'].identifier, age)) && after == before
      else if TooStale(age, backupInterval) then
        r == Err(StaleAutomatedBackup(mine[k'].identifier, age)) && after == before
      else
        after == before + [Tag("SourceDBClusterSnapshotIdentifier", mine[k'].identifier)] &&
        r == Ok(CopySnapshot(region, mine[k'].identifier, snapshotIdentifier, None, after, None, Some(false)));
    NewestTimeUnique(mine, k, k');
  }

  /**
   * A backup 30 hours old with a 24-hour interval: the code as written
   * raises while composing the warning and leaves the tags alone, where the
   * intended 2x window copies it.
   */
  lemma StaleWindowDiffers(b: RawSnapshot, before: seq<Tag>, region: string, snapshotIdentifier: string,
                           r: Result<Request, BackupFailure>, after: seq<Tag>,
                           r': Result<Request, BackupFailure>, after': seq<Tag>)
    requires CopiesNewest([b], r, before, after, region, snapshotIdentifier, 24, b.createTime + 30 * 60 * 60, true)
    requires CopiesNewest([b], r', before, after', region, snapshotIdentifier, 24, b.createTime + 30 * 60 * 60, false)
    ensures r == Err(WarningRaised(b.identifier, 30 * 60 * 60)) && after == before
    ensures after' == before + [Tag("SourceDBClusterSnapshotIdentifier", b.identifier)]
    ensures r' == Ok(CopySnapshot(region, b.identifier, snapshotIdentifier, None, after', None, Some(false)))
  {
    assert IsLastNewest([b], 0);
  }

  /**
   * copy_or_create_db_snapshot. `listed` is what listing the automated
   * snapshots returns, `nowSeconds` the current time on the scale of
   * createTime; the request is the one the function sends through `region`.
   */
  method CopyOrCreate(cache: AutomatedBackupCache, tags: SnapshotTags, listed: seq<RawSnapshot>,
                      region: string, cluster: Cluster, snapshotIdentifier: string,
                      useAutomated: bool, backupInterval: int, nowSeconds: int)
    returns (r: Result<Request, BackupFailure>)
    modifies cache, tags
    ensures !useAutomated ==>
      cache.backups == old(cache.backups) &&
      tags.items == old(tags.items) + [Tag("DBClusterIdentifier", cluster.identifier)] &&
      r == Ok(CreateSnapshot(region, snapshotIdentifier, cluster.identifier, tags.items))
    ensures useAutomated ==> cache.backups == (if old(cache.backups) == [] then listed else old(cache.backups))
    ensures useAutomated && BackupsOf(cluster.identifier, cache.backups) == [] ==>
      r == Err(NoAutomatedBackup(cluster.identifier)) && tags.items == old(tags.items)
    ensures useAutomated && BackupsOf(cluster.identifier, cache.backups) != [] ==>
      CopiesNewest(BackupsOf(cluster.identifier, cache.backups), r, old(tags.items), tags.items,
                   region, snapshotIdentifier, backupInterval, nowSeconds, false)
  {
    if !useAutomated {
      tags.Append(Tag("DBClusterIdentifier", cluster.identifier));
      return Ok(CreateSnapshot(region, snapshotIdentifier, cluster.identifier, tags.items));
    }
    var all := cache.GetAll(listed);
    var mine := BackupsOf(cluster.identifier, all);
    r := CopyNewest(tags, mine, region, cluster.identifier, snapshotIdentifier, backupInterval, nowSeconds, false);
  }
}
