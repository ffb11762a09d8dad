/**
 * The naming convention that carries a snapshot's cluster and creation time:
 * `<cluster>-<YYYY-MM-DD-HH-MM>`, or `<prefix>-<cluster>-<YYYY-MM-DD-HH-MM>`,
 * and the snapshot identifier embedded in a cluster-snapshot ARN.
 *
 * The decoders follow the regular expressions of the Python code with the
 * cluster identifier read literally (no regex metacharacters): `re.search`
 * finds the leftmost `<cluster>-`, and a later occurrence only sees a suffix
 * of what the first one sees, so the first occurrence decides.
 */
module Identifiers {
  import opened Wrappers
  import opened Timestamps

  predicate OccursAt(pat: string, s: string, i: nat) {
    i + |pat| <= |s| && s[i..i + |pat|] == pat
  }

  /** The leftmost position at or after `from` where `pat` occurs. */
  function FirstOccurrenceFrom(pat: string, s: string, from: nat): (r: Option<nat>)
    ensures r.Some? ==> from <= r.value && OccursAt(pat, s, r.value)
    ensures r.Some? ==> forall j | from <= j < r.value :: !OccursAt(pat, s, j)
    ensures r.None? ==> forall j | from <= j :: !OccursAt(pat, s, j)
    decreases |s| - from
  {
    if from + |pat| > |s| then None
    else if OccursAt(pat, s, from) then Some(from)
    else FirstOccurrenceFrom(pat, s, from + 1)
  }

  function FirstOccurrence(pat: string, s: string): Option<nat> {
    FirstOccurrenceFrom(pat, s, 0)
  }

  /** The identifier take_snapshots gives a new snapshot; `stamp` is the formatted time. */
  function NewSnapshotIdentifier(addName: string, clusterId: string, stamp: string): string {
    if addName != "NONE" then addName + "-" + clusterId + "-" + stamp
    else clusterId + "-" + stamp
  }

  // ---------------------------------------------------------------------
  // get_timestamp: '<cluster>-(.+)' then strptime('%Y-%m-%d-%H-%M').

  /** The text the group `(.+)` captures after the leftmost `<cluster>-`. */
  function CapturedAfter(snapshotId: string, clusterId: string): (r: Option<string>)
    ensures r.Some? ==> |r.value| > 0
  {
    var pat := clusterId + "-";
    match FirstOccurrence(pat, snapshotId)
    case None => None
    case Some(p) =>
      var rest := snapshotId[p + |pat|..];
      if |rest| == 0 then None else Some(rest)
  }

  /** get_timestamp: never raises; None when nothing matches or the text does not parse. */
  function GetTimestamp(snapshotId: string, clusterId: string): (r: Option<DateTime>)
    ensures r.Some? ==> Valid(r.value) && r.value.second == 0
  {
    match CapturedAfter(snapshotId, clusterId)
    case None => None
    case Some(rest) => ParseMinute(rest)
  }

  // ---------------------------------------------------------------------
  // get_timestamp_no_minute: '<cluster>-(.+)-\d{2}' then strptime('%Y-%m-%d-%H'),
  // with no try/except around strptime.

  /** The outcome of get_timestamp_no_minute: no match (None), a datetime, or a raised ValueError. */
  datatype HourDecode = NoMatch | Hour(t: DateTime) | Unparsable

  /** `-` followed by two digits at `k`, with at least one character before it. */
  predicate DashTwoDigitsAt(s: string, k: nat) {
    1 <= k && k + 3 <= |s| && s[k] == '-' && IsDigit(s[k + 1]) && IsDigit(s[k + 2])
  }

  /** The greedy `(.+)` stops at the rightmost `-\d{2}` below `hi`. */
  function LastDashTwoDigitsBelow(s: string, hi: nat): (r: Option<nat>)
    ensures r.Some? ==> r.value < hi && DashTwoDigitsAt(s, r.value)
    ensures r.Some? ==> forall j | r.value < j < hi :: !DashTwoDigitsAt(s, j)
    ensures r.None? ==> forall j: nat | j < hi :: !DashTwoDigitsAt(s, j)
  {
    if hi == 0 then None
    else if DashTwoDigitsAt(s, hi - 1) then Some(hi - 1)
    else LastDashTwoDigitsBelow(s, hi - 1)
  }

  function GetTimestampNoMinute(snapshotId: string, clusterId: string): (r: HourDecode)
    ensures r.Hour? ==> Valid(r.t) && r.t.minute == 0 && r.t.second == 0
  {
    match CapturedAfter(snapshotId, clusterId)
    case None => NoMatch
    case Some(rest) =>
      match LastDashTwoDigitsBelow(rest, |rest|)
      case None => NoMatch
      case Some(k) =>
        match ParseHour(rest[..k])
        case None => Unparsable
        case Some(t) => Hour(t)
  }

  // ---------------------------------------------------------------------
  // Properties of the codec.

  lemma {:induction false} DigitsPadRoundTrip(s: string)
    requires AllDigits(s)
    ensures Pad(DigitsValue(s), |s|) == s
  {
    if |s| > 0 {
      var init := s[..|s| - 1];
      DigitsPadRoundTrip(init);
      var n := DigitsValue(s);
      assert n / 10 == DigitsValue(init) && n % 10 == s[|s| - 1] as int - '0' as int;
    }
  }

  /** The fields ParseMinute reads, and the dashes between them. */
  lemma ParseMinuteFields(s: string)
    requires ParseMinute(s).Some?
    ensures |s| == 16 && s[4] == '-' && s[7] == '-' && s[10] == '-' && s[13] == '-'
    ensures AllDigits(s[..4]) && AllDigits(s[5..7]) && AllDigits(s[8..10]) && AllDigits(s[11..13]) && AllDigits(s[14..])
    ensures var t := ParseMinute(s).value;
      t.year == DigitsValue(s[..4]) && t.month == DigitsValue(s[5..7]) && t.day == DigitsValue(s[8..10]) &&
      t.hour == DigitsValue(s[11..13]) && t.minute == DigitsValue(s[14..])
  {
  }

  /** Whatever strptime accepts in the fixed-width form is exactly what strftime writes. */
  lemma FormatParseMinute(s: string)
    requires ParseMinute(s).Some?
    ensures FormatMinute(ParseMinute(s).value) == s
  {
    ParseMinuteFields(s);
    var t := ParseMinute(s).value;
    DigitsPadRoundTrip(s[..4]);
    DigitsPadRoundTrip(s[5..7]);
    DigitsPadRoundTrip(s[8..10]);
    DigitsPadRoundTrip(s[11..13]);
    DigitsPadRoundTrip(s[14..]);
    assert Pad(t.year, 4) == s[..4] && Pad(t.month, 2) == s[5..7] && Pad(t.day, 2) == s[8..10] &&
      Pad(t.hour, 2) == s[11..13] && Pad(t.minute, 2) == s[14..];
    SplitAtDashes(s);
  }

  lemma SplitAtDashes(s: string)
    requires |s| == 16 && s[4] == '-' && s[7] == '-' && s[10] == '-' && s[13] == '-'
    ensures s == s[..4] + "-" + s[5..7] + "-" + s[8..10] + "-" + s[11..13] + "-" + s[14..]
  {
  }

  lemma CapturedAfterOwnName(clusterId: string, stamp: string)
    requires |stamp| > 0
    ensures CapturedAfter(clusterId + "-" + stamp, clusterId) == Some(stamp)
  {
    var s := clusterId + "-" + stamp;
    assert OccursAt(clusterId + "-", s, 0);
    assert s[|clusterId + "-"|..] == stamp;
  }

  /** Decoding a name the tool builds gives back its time, to the minute. */
  lemma DecodeOwnName(clusterId: string, t: DateTime)
    requires Valid(t)
    ensures GetTimestamp(NewSnapshotIdentifier("NONE", clusterId, FormatMinute(t)), clusterId) == Some(TruncateToMinute(t))
  {
    CapturedAfterOwnName(clusterId, FormatMinute(t));
    ParseFormatMinute(t);
  }

  lemma LastDashInFormat(t: DateTime)
    requires Valid(t)
    ensures LastDashTwoDigitsBelow(FormatMinute(t), 16) == Some(13)
  {
    var s := FormatMinute(t);
    FormatMinuteShape(t);
    assert s[14..][0] == s[14] && s[14..][1] == s[15];
    assert s[11..13][0] == s[11];
    assert DashTwoDigitsAt(s, 13);
  }

  /** The hour decoder reads a name the tool builds as its time truncated to the hour. */
  lemma DecodeOwnNameHour(clusterId: string, t: DateTime)
    requires Valid(t)
    ensures GetTimestampNoMinute(NewSnapshotIdentifier("NONE", clusterId, FormatMinute(t)), clusterId) == Hour(TruncateToHour(t))
  {
    CapturedAfterOwnName(clusterId, FormatMinute(t));
    LastDashInFormat(t);
    ParseFormatHour(t);
  }

  /** Where the minute decoder succeeds, the hour decoder gives the same time truncated to the hour. */
  lemma DecodersAgree(snapshotId: string, clusterId: string)
    requires GetTimestamp(snapshotId, clusterId).Some?
    ensures GetTimestampNoMinute(snapshotId, clusterId) == Hour(TruncateToHour(GetTimestamp(snapshotId, clusterId).value))
  {
    var rest := CapturedAfter(snapshotId, clusterId).value;
    var t := ParseMinute(rest).value;
    FormatParseMinute(rest);
    LastDashInFormat(t);
    ParseFormatHour(t);
  }

  /** A decoded identifier ends in `<cluster>-` followed by the formatted time. */
  lemma DecodedNameShape(snapshotId: string, clusterId: string)
    requires GetTimestamp(snapshotId, clusterId).Some?
    ensures var n := |snapshotId|;
      n >= |clusterId| + 17 &&
      snapshotId[n - 16..] == FormatMinute(GetTimestamp(snapshotId, clusterId).value) &&
      snapshotId[n - 17 - |clusterId|..n - 16] == clusterId + "-"
  {
    var pat := clusterId + "-";
    var n := |snapshotId|;
    var p := FirstOccurrence(pat, snapshotId).value;
    var rest := snapshotId[p + |pat|..];
    assert CapturedAfter(snapshotId, clusterId) == Some(rest);
    assert ParseMinute(rest).Some?;
    FormatParseMinute(rest);
    assert |rest| == 16 && p + |pat| == n - 16;
    assert snapshotId[p..p + |pat|] == pat;
  }

  /**
   * With a name prefix the time still decodes, provided `<cluster>-` does not
   * occur earlier in the name than where the tool put it.
   */
  lemma DecodePrefixedName(addName: string, clusterId: string, t: DateTime)
    requires Valid(t) && addName != "NONE"
    requires forall i | 0 <= i <= |addName| ::
      !OccursAt(clusterId + "-", NewSnapshotIdentifier(addName, clusterId, FormatMinute(t)), i)
    ensures GetTimestamp(NewSnapshotIdentifier(addName, clusterId, FormatMinute(t)), clusterId) == Some(TruncateToMinute(t))
  {
    var s := NewSnapshotIdentifier(addName, clusterId, FormatMinute(t));
    var pat := clusterId + "-";
    var p := |addName| + 1;
    assert s == addName + "-" + pat + FormatMinute(t);
    assert OccursAt(pat, s, p) by {
      assert s[p..p + |pat|] == pat;
    }
    assert FirstOccurrence(pat, s) == Some(p);
    assert s[p + |pat|..] == FormatMinute(t);
    ParseFormatMinute(t);
  }

  /**
   * A prefix that itself contains `<cluster>-` (starting anywhere within the
   * prefix or at its closing dash) hides the time: the leftmost match then
   * captures more than the sixteen characters of a timestamp, so nothing
   * decodes. For instance prefix "x-a" with cluster "a" gives "x-a-a-<time>".
   */
  lemma PrefixCollision(addName: string, clusterId: string, t: DateTime, i: nat)
    requires Valid(t) && addName != "NONE" && i <= |addName|
    requires OccursAt(clusterId + "-", NewSnapshotIdentifier(addName, clusterId, FormatMinute(t)), i)
    ensures GetTimestamp(NewSnapshotIdentifier(addName, clusterId, FormatMinute(t)), clusterId) == None
  {
    var pat := clusterId + "-";
    var s := NewSnapshotIdentifier(addName, clusterId, FormatMinute(t));
    assert |FormatMinute(t)| == 16;
    var p := FirstOccurrence(pat, s);
    assert p.Some? && p.value <= i;
    assert |s[p.value + |pat|..]| > 16;
  }

  /** The collision happens for the prefix "x-a" and cluster "a". */
  lemma PrefixCollisionExample(t: DateTime)
    requires Valid(t)
    ensures GetTimestamp(NewSnapshotIdentifier("x-a", "a", FormatMinute(t)), "a") == None
  {
    var s := NewSnapshotIdentifier("x-a", "a", FormatMinute(t));
    assert s[2..4] == "a-";
    PrefixCollision("x-a", "a", t, 2);
  }

  // ---------------------------------------------------------------------
  // get_snapshot_identifier: re.match('arn:aws:rds:.*:.*:cluster-snapshot:(.+)', arn).
  // The greedy `.*` pick the rightmost ':cluster-snapshot:' that leaves a
  // non-empty group and has a ':' between the 'arn:aws:rds:' prefix and itself.

  const ArnPrefix: string := "arn:aws:rds:"
  const SnapshotMarker: string := ":cluster-snapshot:"

  predicate ArnMatchAt(arn: string, b: nat) {
    OccursAt(ArnPrefix, arn, 0) && OccursAt(SnapshotMarker, arn, b) &&
    b + |SnapshotMarker| < |arn| &&
    exists a | |ArnPrefix| <= a < b :: arn[a] == ':'
  }

  function LastArnMatchBelow(arn: string, hi: nat): (r: Option<nat>)
    ensures r.Some? ==> r.value < hi && ArnMatchAt(arn, r.value)
    ensures r.Some? ==> forall b | r.value < b < hi :: !ArnMatchAt(arn, b)
    ensures r.None? ==> forall b: nat | b < hi :: !ArnMatchAt(arn, b)
  {
    if hi == 0 then None
    else if ArnMatchAt(arn, hi - 1) then Some(hi - 1)
    else LastArnMatchBelow(arn, hi - 1)
  }

  /** get_snapshot_identifier; None where `match.group` would raise on a failed match. */
  function ArnSnapshotId(arn: string): (r: Option<string>)
    ensures r.Some? ==> OccursAt(ArnPrefix, arn, 0) && |r.value| > 0
    ensures r.Some? ==> exists b: nat :: ArnMatchAt(arn, b) && r.value == arn[b + |SnapshotMarker|..]
  {
    match LastArnMatchBelow(arn, |arn|)
    case None => None
    case Some(b) => Some(arn[b + |SnapshotMarker|..])
  }

  /** The ARN the provider gives a cluster snapshot. */
  function ClusterSnapshotArn(region: string, account: string, snapshotId: string): string {
    ArnPrefix + region + ":" + account + SnapshotMarker + snapshotId
  }

  /** The identifier comes back out of a well-formed ARN when it has no ':' in it. */
  lemma ArnRoundTrip(region: string, account: string, snapshotId: string)
    requires |snapshotId| > 0 && ':' !in snapshotId
    ensures ArnSnapshotId(ClusterSnapshotArn(region, account, snapshotId)) == Some(snapshotId)
  {
    var s := ClusterSnapshotArn(region, account, snapshotId);
    var b0 := |ArnPrefix| + |region| + 1 + |account|;
    assert s == ArnPrefix + region + ":" + account + SnapshotMarker + snapshotId;
    assert OccursAt(ArnPrefix, s, 0) by { assert s[..|ArnPrefix|] == ArnPrefix; }
    assert OccursAt(SnapshotMarker, s, b0) by { assert s[b0..b0 + |SnapshotMarker|] == SnapshotMarker; }
    assert s[|ArnPrefix| + |region|] == ':';
    assert ArnMatchAt(s, b0);
    assert s[b0 + |SnapshotMarker|..] == snapshotId;
    forall b | b0 < b < |s|
      ensures !ArnMatchAt(s, b)
    {
      if b + |SnapshotMarker| <= |s| {
        // the marker ends in ':', which would have to fall inside the identifier
        assert s[b + 17] == snapshotId[b + 17 - b0 - |SnapshotMarker|];
        assert s[b..b + |SnapshotMarker|][17] == s[b + 17] != ':';
      }
    }
  }
}
