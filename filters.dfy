/**
 * The snapshot filters (get_own_snapshots_*, get_shared_snapshots and the
 * per-lambda get_own_snapshots variants) and filter_clusters. A filter walks
 * 'DBClusterSnapshots' in order and fills a dict; each snapshot is decided on
 * its own, by the if/elif chain of the filter it goes through.
 */
module Filters {
  import opened Wrappers
  import opened Tags
  import opened Identifiers
  import opened Inventory

  const AllClusters: string := "ALL_CLUSTERS"
  const AllSnapshots: string := "ALL_SNAPSHOTS"

  /** _SUPPORTED_ENGINES of the shared utilities. */
  const SupportedEngines: seq<string> := ["aurora", "aurora-mysql", "aurora-postgresql", "neptune"]

  /** SUPPORTED_ENGINES of the copy, delete and share lambdas. */
  const AuroraEngines: seq<string> := ["aurora"]

  /** re.search(pattern, text) is truthy; regular expressions are not interpreted. */
  type Matcher = (string, string) -> bool

  /** list_tags_for_resource(ResourceName=arn). */
  type TagLookup = string -> TagResponse

  datatype FilterKind =
    | OwnSource                                      // get_own_snapshots_source
    | OwnNoXAccount                                  // get_own_snapshots_no_x_account
    | OwnShare                                       // get_own_snapshots_share
    | SharedSnapshots                                // get_shared_snapshots
    | OwnDest                                        // get_own_snapshots_dest
    | SharedById                                     // get_shared_snapshots of copy_snapshots_dest_aurora
    | OwnById(sentinel: string, withEncryption: bool) // get_own_snapshots of the lambdas

  /** A filter together with the PATTERN and the provider calls it uses. */
  datatype Filter = Filter(kind: FilterKind, pattern: string, matches: Matcher, tagsOf: TagLookup)

  /** What one snapshot does to the dict: nothing, one assignment, or an exception. */
  datatype Decision = Skip | Keep(key: string, entry: Entry) | Raise

  /** {'Arn', 'Status', 'DBClusterIdentifier'} */
  function BasicEntry(s: RawSnapshot): Entry {
    Entry(s.arn, s.clusterId, Some(s.status), None, None)
  }

  /** {'Arn': DBClusterSnapshotIdentifier, 'StorageEncrypted', 'DBClusterIdentifier'} plus 'KmsKeyId' when encrypted. */
  function SharedEntry(s: RawSnapshot): Entry {
    Entry(s.identifier, s.clusterId, None, Some(s.encrypted), if s.encrypted then Some(s.kmsKeyId) else None)
  }

  /** {'Arn', 'Status', 'StorageEncrypted', 'DBClusterIdentifier'} plus 'KmsKeyId' when encrypted. */
  function DestEntry(s: RawSnapshot): Entry {
    Entry(s.arn, s.clusterId, Some(s.status), Some(s.encrypted), if s.encrypted then Some(s.kmsKeyId) else None)
  }

  /** filtered[get_snapshot_identifier(snapshot)] = ...; the lookup raises when the ARN does not match. */
  function KeepShared(s: RawSnapshot): Decision {
    match ArnSnapshotId(s.arn)
    case None => Raise
    case Some(id) => Keep(id, SharedEntry(s))
  }

  /** The body of one iteration of a filter loop, branch for branch. */
  function Decide(f: Filter, s: RawSnapshot): Decision {
    var p := f.pattern;
    match f.kind
    case OwnSource =>
      if s.origin == Manual && f.matches(p, s.clusterId) && s.engine in SupportedEngines then
        (if SearchTagCreated(f.tagsOf(s.arn)) then Keep(s.identifier, BasicEntry(s)) else Skip)
      else if s.origin == Manual && (p == AllClusters || p == AllSnapshots) && s.engine in SupportedEngines then
        (if SearchTagCreated(f.tagsOf(s.arn)) then Keep(s.identifier, BasicEntry(s)) else Skip)
      else Skip
    case OwnNoXAccount =>
      if s.origin == Manual && f.matches(p, s.clusterId) && s.engine in SupportedEngines then
        (if SearchTagCreated(f.tagsOf(s.arn)) then Keep(s.identifier, BasicEntry(s)) else Skip)
      else if s.origin == Manual && p == AllSnapshots && s.engine in SupportedEngines then
        (if SearchTagCreated(f.tagsOf(s.arn)) then Keep(s.identifier, BasicEntry(s)) else Skip)
      else Skip
    case OwnShare =>
      if s.origin == Manual && f.matches(p, s.clusterId) && s.engine in SupportedEngines then
        Keep(s.identifier, BasicEntry(s))
      else if s.origin == Manual && p == AllClusters && s.engine in SupportedEngines then
        Keep(s.identifier, BasicEntry(s))
      else Skip
    case SharedSnapshots =>
      if s.origin == Shared && f.matches(p, s.clusterId) && s.engine in SupportedEngines then KeepShared(s)
      else if s.origin == Shared && p == AllSnapshots && s.engine in SupportedEngines then KeepShared(s)
      else Skip
    case OwnDest =>
      if s.origin == Manual && f.matches(p, s.clusterId) && s.engine in SupportedEngines then
        Keep(s.identifier, DestEntry(s))
      else if s.origin == Manual && p == AllSnapshots && s.engine in SupportedEngines then
        Keep(s.identifier, DestEntry(s))
      else Skip
    case SharedById =>
      // The ARN is decoded inside the first condition, before the engine test.
      if s.origin != Shared then Skip
      else (match ArnSnapshotId(s.arn)
        case None => Raise
        case Some(id) =>
          if f.matches(p, id) && s.engine in AuroraEngines then Keep(id, SharedEntry(s))
          else if p == AllSnapshots && s.engine in AuroraEngines then Keep(id, SharedEntry(s))
          else Skip)
    case OwnById(sentinel, withEncryption) =>
      var e := if withEncryption then DestEntry(s) else BasicEntry(s);
      if s.origin == Manual && f.matches(p, s.identifier) && s.engine in AuroraEngines then Keep(s.identifier, e)
      else if s.origin == Manual && p == sentinel && s.engine in AuroraEngines then Keep(s.identifier, e)
      else Skip
  }

  // ---------------------------------------------------------------------
  // The same selection, stated per property instead of per branch.

  function OriginOf(kind: FilterKind): Origin {
    if kind.SharedSnapshots? || kind.SharedById? then Shared else Manual
  }

  function EnginesOf(kind: FilterKind): seq<string> {
    if kind.SharedById? || kind.OwnById? then AuroraEngines else SupportedEngines
  }

  /** The PATTERN values that select every snapshot of the right type and engine. */
  function SentinelsOf(kind: FilterKind): set<string> {
    match kind
    case OwnSource => {AllClusters, AllSnapshots}
    case OwnNoXAccount => {AllSnapshots}
    case OwnShare => {AllClusters}
    case SharedSnapshots => {AllSnapshots}
    case OwnDest => {AllSnapshots}
    case SharedById => {AllSnapshots}
    case OwnById(sentinel, _) => {sentinel}
  }

  /** The text PATTERN is searched in. */
  function MatchedText(kind: FilterKind, s: RawSnapshot): Option<string> {
    match kind
    case SharedById => ArnSnapshotId(s.arn)
    case OwnById(_, _) => Some(s.identifier)
    case _ => Some(s.clusterId)
  }

  /** The dict key: the identifier, or for shared snapshots the identifier inside the ARN. */
  function KeyOf(kind: FilterKind, s: RawSnapshot): Option<string> {
    if OriginOf(kind) == Shared then ArnSnapshotId(s.arn) else Some(s.identifier)
  }

  function EntryOf(kind: FilterKind, s: RawSnapshot): Entry {
    match kind
    case OwnSource => BasicEntry(s)
    case OwnNoXAccount => BasicEntry(s)
    case OwnShare => BasicEntry(s)
    case SharedSnapshots => SharedEntry(s)
    case SharedById => SharedEntry(s)
    case OwnDest => DestEntry(s)
    case OwnById(_, withEncryption) => if withEncryption then DestEntry(s) else BasicEntry(s)
  }

  predicate Selected(f: Filter, s: RawSnapshot) {
    var text := MatchedText(f.kind, s);
    s.origin == OriginOf(f.kind) && s.engine in EnginesOf(f.kind) &&
    (f.pattern in SentinelsOf(f.kind) || (text.Some? && f.matches(f.pattern, text.value))) &&
    ((f.kind.OwnSource? || f.kind.OwnNoXAccount?) ==> SearchTagCreated(f.tagsOf(s.arn)))
  }

  /** The snapshots on which the filter raises: a shared one whose ARN does not decode. */
  predicate RaisesOn(f: Filter, s: RawSnapshot) {
    KeyOf(f.kind, s).None? && if f.kind.SharedById? then s.origin == Shared else Selected(f, s)
  }

  /** The dict values each filter writes; 'KmsKeyId' is present iff StorageEncrypted is True. */
  predicate WellShaped(kind: FilterKind, e: Entry) {
    match EntryOf(kind, RawSnapshot("", "", "", Manual, "", "", false, "", 0))
    case Entry(_, _, status, encrypted, _) =>
      e.status.Some? == status.Some? && e.encrypted.Some? == encrypted.Some? &&
      (e.kmsKeyId.Some? <==> e.encrypted == Some(true))
  }

  lemma DecideSelected(f: Filter, s: RawSnapshot)
    ensures Decide(f, s).Keep? <==> Selected(f, s) && KeyOf(f.kind, s).Some?
    ensures Decide(f, s).Keep? ==> Decide(f, s) == Keep(KeyOf(f.kind, s).value, EntryOf(f.kind, s))
    ensures Decide(f, s).Raise? <==> RaisesOn(f, s)
    ensures Decide(f, s).Keep? ==> WellShaped(f.kind, Decide(f, s).entry)
  {
  }

  // ---------------------------------------------------------------------
  // The whole loop. The fold is stated for any per-snapshot decision, so
  // that its lemmas never look inside Decide.

  type Decider = RawSnapshot -> Decision

  function DecideFor(f: Filter): Decider {
    s => Decide(f, s)
  }

  /** The dict built from `xs`, or the first snapshot on which the loop raises. */
  function Build(decide: Decider, xs: seq<RawSnapshot>): Result<Dict, RawSnapshot> {
    if |xs| == 0 then Ok([])
    else match Build(decide, xs[..|xs| - 1])
      case Err(e) => Err(e)
      case Ok(d) =>
        match decide(xs[|xs| - 1])
        case Skip => Ok(d)
        case Raise => Err(xs[|xs| - 1])
        case Keep(k, v) => Ok(Put(d, k, v))
  }

  function FilterSpec(f: Filter, xs: seq<RawSnapshot>): Result<Dict, RawSnapshot> {
    Build(DecideFor(f), xs)
  }

  lemma {:induction false} ErrSticks(decide: Decider, xs: seq<RawSnapshot>, n: nat)
    requires n <= |xs| && Build(decide, xs[..n]).Err?
    ensures Build(decide, xs) == Build(decide, xs[..n])
    decreases |xs| - n
  {
    if n < |xs| {
      assert xs[..n + 1][..n] == xs[..n];
      ErrSticks(decide, xs, n + 1);
    } else {
      assert xs[..n] == xs;
    }
  }

  method FilterSnapshots(f: Filter, xs: seq<RawSnapshot>) returns (r: Result<Dict, RawSnapshot>)
    ensures r == FilterSpec(f, xs)
  {
    var filtered: Dict := [];
    for i := 0 to |xs|
      invariant Build(DecideFor(f), xs[..i]) == Ok(filtered)
    {
      assert xs[..i + 1][..i] == xs[..i];
      match Decide(f, xs[i]) {
        case Skip =>
        case Raise =>
          ErrSticks(DecideFor(f), xs, i + 1);
          return Err(xs[i]);
        case Keep(k, v) =>
          filtered := Put(filtered, k, v);
      }
    }
    assert xs[..|xs|] == xs;
    return Ok(filtered);
  }

  predicate KeptAt(decide: Decider, xs: seq<RawSnapshot>, i: int, k: string)
    requires 0 <= i < |xs|
  {
    decide(xs[i]).Keep? && decide(xs[i]).key == k
  }

  /** The loop raises exactly when some snapshot raises, and reports the first. */
  lemma {:induction false} BuildRaises(decide: Decider, xs: seq<RawSnapshot>)
    ensures Build(decide, xs).Err? <==> exists i | 0 <= i < |xs| :: decide(xs[i]).Raise?
    ensures Build(decide, xs).Err? ==>
      exists i | 0 <= i < |xs| :: decide(xs[i]).Raise? && Build(decide, xs).error == xs[i] &&
        forall j | 0 <= j < i :: !decide(xs[j]).Raise?
  {
    if |xs| > 0 {
      var init := xs[..|xs| - 1];
      BuildRaises(decide, init);
      assert forall i | 0 <= i < |init| :: init[i] == xs[i];
    }
  }

  /** The keys are exactly those of the kept snapshots, each once. */
  lemma {:induction false} BuildKeys(decide: Decider, xs: seq<RawSnapshot>)
    requires Build(decide, xs).Ok?
    ensures UniqueKeys(Build(decide, xs).value)
    ensures forall k :: k in Keys(Build(decide, xs).value) <==> exists i | 0 <= i < |xs| :: KeptAt(decide, xs, i, k)
  {
    if |xs| > 0 {
      var init := xs[..|xs| - 1];
      BuildKeys(decide, init);
      assert forall i | 0 <= i < |init| :: init[i] == xs[i];
      var d := Build(decide, init).value;
      match decide(xs[|xs| - 1]) {
        case Skip =>
          forall k ensures k in Keys(d) <==> exists i | 0 <= i < |xs| :: KeptAt(decide, xs, i, k) {
            if k in Keys(d) {
              var i :| 0 <= i < |init| && KeptAt(decide, init, i, k);
              assert KeptAt(decide, xs, i, k);
            }
            if i :| 0 <= i < |xs| && KeptAt(decide, xs, i, k) {
              assert i < |init| && KeptAt(decide, init, i, k);
            }
          }
        case Keep(k, v) =>
          PutKeys(d, k, v);
          PutUnique(d, k, v);
          assert KeptAt(decide, xs, |xs| - 1, k);
          forall k' ensures k' in Keys(Put(d, k, v)) <==> exists i | 0 <= i < |xs| :: KeptAt(decide, xs, i, k') {
            assert k' in Keys(Put(d, k, v)) <==> k' in Keys(d) || k' == k;
            if k' in Keys(d) {
              var i :| 0 <= i < |init| && KeptAt(decide, init, i, k');
              assert KeptAt(decide, xs, i, k');
            }
            if i :| 0 <= i < |xs| && KeptAt(decide, xs, i, k') {
              assert (i < |init| && KeptAt(decide, init, i, k')) || k' == k;
            }
          }
      }
    }
  }

  /** A key holds the value written by the last snapshot kept under it. */
  lemma {:induction false} BuildLastWins(decide: Decider, xs: seq<RawSnapshot>, i: nat)
    requires Build(decide, xs).Ok? && i < |xs| && decide(xs[i]).Keep?
    requires forall j | i < j < |xs| :: !KeptAt(decide, xs, j, decide(xs[i]).key)
    ensures Find(Build(decide, xs).value, decide(xs[i]).key) == Some(decide(xs[i]).entry)
  {
    var init := xs[..|xs| - 1];
    var d := Build(decide, init).value;
    var k := decide(xs[i]).key;
    assert forall j | 0 <= j < |init| :: init[j] == xs[j];
    assert forall j | i < j < |init| :: !KeptAt(decide, init, j, k) by {
      forall j | i < j < |init| ensures !KeptAt(decide, init, j, k) {
        assert !KeptAt(decide, xs, j, k);
      }
    }
    match decide(xs[|xs| - 1]) {
      case Skip =>
        BuildLastWins(decide, init, i);
      case Keep(k', v') =>
        PutFind(d, k', v', k);
        if i < |xs| - 1 {
          assert k' != k by { assert KeptAt(decide, xs, |xs| - 1, k'); }
          BuildLastWins(decide, init, i);
        }
    }
  }

  /** Every value in the dict is one the decision wrote, so it has the shape `shaped` promises. */
  lemma {:induction false} BuildValues(decide: Decider, xs: seq<RawSnapshot>, shaped: Entry -> bool)
    requires Build(decide, xs).Ok?
    requires forall i | 0 <= i < |xs| :: decide(xs[i]).Keep? ==> shaped(decide(xs[i]).entry)
    ensures forall k | k in Keys(Build(decide, xs).value) :: shaped(Find(Build(decide, xs).value, k).value)
  {
    if |xs| > 0 {
      var init := xs[..|xs| - 1];
      assert forall j | 0 <= j < |init| :: init[j] == xs[j];
      BuildValues(decide, init, shaped);
      var d := Build(decide, init).value;
      match decide(xs[|xs| - 1]) {
        case Skip =>
        case Keep(k, v) =>
          PutKeys(d, k, v);
          forall k' | k' in Keys(Put(d, k, v)) ensures shaped(Find(Put(d, k, v), k').value) {
            PutFind(d, k, v, k');
          }
      }
    }
  }

  /** A filter raises exactly on the first snapshot of RaisesOn. */
  lemma FilterRaises(f: Filter, xs: seq<RawSnapshot>)
    ensures FilterSpec(f, xs).Err? <==> exists i | 0 <= i < |xs| :: RaisesOn(f, xs[i])
    ensures FilterSpec(f, xs).Err? ==>
      exists i | 0 <= i < |xs| :: RaisesOn(f, xs[i]) && FilterSpec(f, xs).error == xs[i] &&
        forall j | 0 <= j < i :: !RaisesOn(f, xs[j])
  {
    BuildRaises(DecideFor(f), xs);
    forall i | 0 <= i < |xs| ensures DecideFor(f)(xs[i]).Raise? == RaisesOn(f, xs[i]) {
      DecideSelected(f, xs[i]);
    }
  }

  /** The filters of the account's own snapshots key by identifier, so they never raise. */
  lemma OwnFilterNeverRaises(f: Filter, xs: seq<RawSnapshot>)
    requires OriginOf(f.kind) == Manual
    ensures FilterSpec(f, xs).Ok?
  {
    FilterRaises(f, xs);
  }

  /**
   * What a successful filter keeps, stated per property: the keys of the
   * selected snapshots, each once, with the values its branches write.
   */
  lemma FilterSelects(f: Filter, xs: seq<RawSnapshot>, k: string)
    requires FilterSpec(f, xs).Ok?
    ensures UniqueKeys(FilterSpec(f, xs).value)
    ensures k in Keys(FilterSpec(f, xs).value) <==>
      exists i | 0 <= i < |xs| :: Selected(f, xs[i]) && KeyOf(f.kind, xs[i]) == Some(k)
    ensures k in Keys(FilterSpec(f, xs).value) ==> WellShaped(f.kind, Find(FilterSpec(f, xs).value, k).value)
  {
    var decide := DecideFor(f);
    BuildKeys(decide, xs);
    forall i | 0 <= i < |xs| ensures decide(xs[i]).Keep? ==> WellShaped(f.kind, decide(xs[i]).entry) {
      DecideSelected(f, xs[i]);
    }
    BuildValues(decide, xs, e => WellShaped(f.kind, e));
    if k in Keys(FilterSpec(f, xs).value) {
      var i :| 0 <= i < |xs| && KeptAt(decide, xs, i, k);
      DecideSelected(f, xs[i]);
    }
    if i :| 0 <= i < |xs| && Selected(f, xs[i]) && KeyOf(f.kind, xs[i]) == Some(k) {
      DecideSelected(f, xs[i]);
      assert KeptAt(decide, xs, i, k);
    }
  }

  /** Every value of a filtered dict has the shape its filter writes. */
  lemma FilterItemsShaped(f: Filter, xs: seq<RawSnapshot>)
    requires FilterSpec(f, xs).Ok?
    ensures var d := FilterSpec(f, xs).value; forall i | 0 <= i < |d| :: WellShaped(f.kind, d[i].1)
  {
    var d := FilterSpec(f, xs).value;
    forall i | 0 <= i < |d| ensures WellShaped(f.kind, d[i].1) {
      FilterSelects(f, xs, d[i].0);
      FindItem(d, i);
    }
  }

  /** A selected snapshot's key holds its entry unless a later selected snapshot has the same key. */
  lemma FilterLastWins(f: Filter, xs: seq<RawSnapshot>, i: nat)
    requires FilterSpec(f, xs).Ok? && i < |xs| && Selected(f, xs[i]) && KeyOf(f.kind, xs[i]).Some?
    requires forall j | i < j < |xs| :: !(Selected(f, xs[j]) && KeyOf(f.kind, xs[j]) == KeyOf(f.kind, xs[i]))
    ensures Find(FilterSpec(f, xs).value, KeyOf(f.kind, xs[i]).value) == Some(EntryOf(f.kind, xs[i]))
  {
    var decide := DecideFor(f);
    DecideSelected(f, xs[i]);
    forall j | i < j < |xs| ensures !KeptAt(decide, xs, j, decide(xs[i]).key) {
      DecideSelected(f, xs[j]);
    }
    BuildLastWins(decide, xs, i);
  }

  // ---------------------------------------------------------------------
  // filter_clusters

  predicate ClusterKept(pattern: string, matches: Matcher, c: Cluster) {
    c.engine in SupportedEngines && (pattern == AllClusters || matches(pattern, c.identifier))
  }

  function KeptClusters(pattern: string, matches: Matcher, cs: seq<Cluster>): seq<Cluster> {
    if |cs| == 0 then []
    else
      var last := cs[|cs| - 1];
      KeptClusters(pattern, matches, cs[..|cs| - 1]) + (if ClusterKept(pattern, matches, last) then [last] else [])
  }

  method FilterClusters(pattern: string, matches: Matcher, cs: seq<Cluster>) returns (kept: seq<Cluster>)
    ensures kept == KeptClusters(pattern, matches, cs)
  {
    kept := [];
    for i := 0 to |cs|
      invariant kept == KeptClusters(pattern, matches, cs[..i])
    {
      assert cs[..i + 1][..i] == cs[..i];
      var c := cs[i];
      if pattern == AllClusters && c.engine in SupportedEngines {
        kept := kept + [c];
      } else {
        var match_ := matches(pattern, c.identifier);
        if match_ && c.engine in SupportedEngines {
          kept := kept + [c];
        }
      }
    }
    assert cs[..|cs|] == cs;
  }

  lemma {:induction false} KeptClustersMembers(pattern: string, matches: Matcher, cs: seq<Cluster>)
    ensures forall c :: c in KeptClusters(pattern, matches, cs) <==> c in cs && ClusterKept(pattern, matches, c)
  {
    if |cs| > 0 {
      KeptClustersMembers(pattern, matches, cs[..|cs| - 1]);
      assert cs == cs[..|cs| - 1] + [cs[|cs| - 1]];
    }
  }

  /** Filtering keeps the input order: it distributes over concatenation. */
  lemma {:induction false} KeptClustersAppend(pattern: string, matches: Matcher, a: seq<Cluster>, b: seq<Cluster>)
    ensures KeptClusters(pattern, matches, a + b) == KeptClusters(pattern, matches, a) + KeptClusters(pattern, matches, b)
    decreases |b|
  {
    if |b| > 0 {
      var b' := b[..|b| - 1];
      assert (a + b)[..|a + b| - 1] == a + b';
      KeptClustersAppend(pattern, matches, a, b');
    } else {
      assert a + b == a;
    }
  }
}
