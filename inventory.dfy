/**
 * The records the tool reads from RDS and the dicts it builds from them.
 * A Python dict is an association list in insertion order: assigning to a
 * key that is present keeps its position and replaces its value.
 */
module Inventory {
  import opened Wrappers

  /** SnapshotType of a DB cluster snapshot. */
  datatype Origin = Manual | Automated | Shared

  /** One element of 'DBClusterSnapshots', reduced to the fields the tool reads. */
  datatype RawSnapshot = RawSnapshot(
    identifier: string,   // DBClusterSnapshotIdentifier
    arn: string,          // DBClusterSnapshotArn
    clusterId: string,    // DBClusterIdentifier
    origin: Origin,       // SnapshotType
    engine: string,       // Engine
    status: string,       // Status
    encrypted: bool,      // StorageEncrypted
    kmsKeyId: string,     // KmsKeyId
    createTime: int)      // SnapshotCreateTime, in seconds

  /** One element of 'DBClusters'. */
  datatype Cluster = Cluster(identifier: string, engine: string)

  /**
   * A value of a filtered dict. The Option fields are the keys a filter may
   * or may not set: 'Status', 'StorageEncrypted' and 'KmsKeyId'.
   */
  datatype Entry = Entry(
    arn: string,          // 'Arn'
    clusterId: string,    // 'DBClusterIdentifier'
    status: Option<string>,
    encrypted: Option<bool>,
    kmsKeyId: Option<string>)

  /** One (key, value) pair of dict.items(). */
  type Item = (string, Entry)

  type Dict = seq<Item>

  /** dict.keys(), in iteration order. */
  function Keys(d: Dict): (ks: seq<string>)
    ensures |ks| == |d|
    ensures forall i | 0 <= i < |d| :: ks[i] == d[i].0
  {
    if |d| == 0 then [] else [d[0].0] + Keys(d[1..])
  }

  predicate UniqueKeys(d: Dict) {
    forall i, j | 0 <= i < j < |d| :: d[i].0 != d[j].0
  }

  /** d.get(k): the value stored under k, if any. */
  function Find(d: Dict, k: string): (r: Option<Entry>)
    ensures r.Some? <==> k in Keys(d)
    ensures r.Some? ==> (k, r.value) in d
  {
    if |d| == 0 then None
    else if d[0].0 == k then Some(d[0].1)
    else Find(d[1..], k)
  }

  /** d[k] = v */
  function Put(d: Dict, k: string, v: Entry): Dict {
    if |d| == 0 then [(k, v)]
    else if d[0].0 == k then [(k, v)] + d[1..]
    else [d[0]] + Put(d[1..], k, v)
  }

  /** A new key goes to the end; an existing key keeps its position. */
  lemma {:induction false} PutKeys(d: Dict, k: string, v: Entry)
    ensures Keys(Put(d, k, v)) == if k in Keys(d) then Keys(d) else Keys(d) + [k]
  {
    if |d| > 0 && d[0].0 != k {
      PutKeys(d[1..], k, v);
      assert Keys(d) == [d[0].0] + Keys(d[1..]);
    }
  }

  /** After d[k] = v, d[k] is v and every other key reads as before. */
  lemma {:induction false} PutFind(d: Dict, k: string, v: Entry, k': string)
    ensures Find(Put(d, k, v), k') == if k' == k then Some(v) else Find(d, k')
  {
    if |d| > 0 && d[0].0 != k {
      PutFind(d[1..], k, v, k');
    }
  }

  lemma {:induction false} PutUnique(d: Dict, k: string, v: Entry)
    requires UniqueKeys(d)
    ensures UniqueKeys(Put(d, k, v))
  {
    var r := Put(d, k, v);
    PutKeys(d, k, v);
    var ks, rs := Keys(d), Keys(r);
    forall i, j | 0 <= i < j < |r| ensures r[i].0 != r[j].0 {
      assert rs[i] == r[i].0 && rs[j] == r[j].0;
      if j < |d| {
        assert ks[i] == d[i].0 && ks[j] == d[j].0;
      } else {
        assert k !in ks && rs[j] == k;
        assert ks[i] == d[i].0;
      }
    }
  }

  /** Iterating d.items() of a dict gives each key with the value stored under it. */
  lemma {:induction false} FindItem(d: Dict, i: nat)
    requires UniqueKeys(d) && i < |d|
    ensures Find(d, d[i].0) == Some(d[i].1)
  {
    if i > 0 {
      assert d[0].0 != d[i].0;
      assert UniqueKeys(d[1..]) by {
        forall a, b | 0 <= a < b < |d| - 1 ensures d[1..][a].0 != d[1..][b].0 {
          assert d[a + 1].0 != d[b + 1].0;
        }
      }
      FindItem(d[1..], i - 1);
    }
  }

  /** str.lower(), on ASCII letters. */
  function Lower(s: string): string {
    if |s| == 0 then ""
    else [if 'A' <= s[0] <= 'Z' then (s[0] as int + 32) as char else s[0]] + Lower(s[1..])
  }
}
