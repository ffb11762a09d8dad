/**
 * Tag markers, the tool's only durable state, and the predicates that look
 * for them in list_tags_for_resource responses. Every predicate catches the
 * exceptions its loop can raise and answers False instead.
 */
module Tags {

  datatype Tag = Tag(key: string, value: string)

  /** One element of a 'TagList'; Malformed stands for one whose 'Key' cannot be read. */
  datatype TagEntry = TagItem(tag: Tag) | Malformed

  /** A list_tags_for_resource response; NoTagList when it carries no 'TagList'. */
  datatype TagResponse = TagList(entries: seq<TagEntry>) | NoTagList

  const ToolName: string := "Snapshot Tool for Aurora"
  const CreatedByTool: Tag := Tag("CreatedBy", ToolName)
  const CopiedByTool: Tag := Tag("CopiedBy", ToolName)
  const ShareAndCopyYes: Tag := Tag("shareAndCopy", "YES")
  const ReEncryptNo: Tag := Tag("reEncrypt", "NO")

  /** The tags a loop over `entries` reads before the first malformed one raises. */
  function Readable(entries: seq<TagEntry>): seq<Tag> {
    if |entries| == 0 then []
    else match entries[0]
      case Malformed => []
      case TagItem(t) => [t] + Readable(entries[1..])
  }

  /** `for tag in TagList: if tag == want: return True`, inside try/except returning False. */
  function ScanFor(entries: seq<TagEntry>, want: Tag): bool {
    if |entries| == 0 then false
    else match entries[0]
      case Malformed => false
      case TagItem(t) => t == want || ScanFor(entries[1..], want)
  }

  lemma {:induction false} ScanForReadable(entries: seq<TagEntry>, want: Tag)
    ensures ScanFor(entries, want) <==> want in Readable(entries)
  {
    if |entries| > 0 && entries[0].TagItem? {
      ScanForReadable(entries[1..], want);
    }
  }

  /** search_tag_created, and search_tag of delete_old_snapshots_aurora. */
  function SearchTagCreated(r: TagResponse): bool {
    match r
    case NoTagList => false
    case TagList(es) => ScanFor(es, CreatedByTool)
  }

  /** search_tag_copied, and search_tag of delete_old_snapshots_dest_aurora. */
  function SearchTagCopied(r: TagResponse): bool {
    match r
    case NoTagList => false
    case TagList(es) => ScanFor(es, CopiedByTool)
  }

  lemma SearchTagCreatedIff(r: TagResponse)
    ensures SearchTagCreated(r) <==> r.TagList? && CreatedByTool in Readable(r.entries)
  {
    if r.TagList? {
      ScanForReadable(r.entries, CreatedByTool);
    }
  }

  lemma SearchTagCopiedIff(r: TagResponse)
    ensures SearchTagCopied(r) <==> r.TagList? && CopiedByTool in Readable(r.entries)
  {
    if r.TagList? {
      ScanForReadable(r.entries, CopiedByTool);
    }
  }

  // ---------------------------------------------------------------------
  // search_tag_share (and search_tag of share_snapshots_aurora): for each
  // shareAndCopy=YES tag, rescan the whole list for CreatedBy=tool.

  datatype InnerScan = Found | NotFound | Raised

  function ScanInner(entries: seq<TagEntry>, want: Tag): (r: InnerScan)
    ensures r == Found <==> want in Readable(entries)
  {
    if |entries| == 0 then NotFound
    else match entries[0]
      case Malformed => Raised
      case TagItem(t) => if t == want then Found else ScanInner(entries[1..], want)
  }

  function ShareOuter(all: seq<TagEntry>, rest: seq<TagEntry>): bool {
    if |rest| == 0 then false
    else match rest[0]
      case Malformed => false
      case TagItem(t) =>
        if t == ShareAndCopyYes then
          match ScanInner(all, CreatedByTool)
          case Found => true
          case Raised => false
          case NotFound => ShareOuter(all, rest[1..])
        else ShareOuter(all, rest[1..])
  }

  function SearchTagShare(r: TagResponse): bool {
    match r
    case NoTagList => false
    case TagList(es) => ShareOuter(es, es)
  }

  lemma {:induction false} ShareOuterIff(all: seq<TagEntry>, rest: seq<TagEntry>)
    ensures ShareOuter(all, rest) <==> CreatedByTool in Readable(all) && ShareAndCopyYes in Readable(rest)
  {
    if |rest| > 0 && rest[0].TagItem? {
      ShareOuterIff(all, rest[1..]);
    }
  }

  /** True exactly when both markers are readable, in either order. */
  lemma SearchTagShareIff(r: TagResponse)
    ensures SearchTagShare(r) <==>
      r.TagList? && ShareAndCopyYes in Readable(r.entries) && CreatedByTool in Readable(r.entries)
  {
    if r.TagList? {
      ShareOuterIff(r.entries, r.entries);
    }
  }

  // ---------------------------------------------------------------------
  // check_snapshot_shared of share_snapshots_aurora.

  /** One element of 'DBClusterSnapshotAttributes'; values are already str(value). */
  datatype AttributeEntry = Attribute(name: string, values: seq<string>) | MalformedAttribute

  /** A describe_db_cluster_snapshot_attributes response; NoAttributes when the result is missing. */
  datatype AttributesResponse = Attributes(entries: seq<AttributeEntry>) | NoAttributes

  function ReadableAttributes(entries: seq<AttributeEntry>): seq<AttributeEntry> {
    if |entries| == 0 then []
    else match entries[0]
      case MalformedAttribute => []
      case Attribute(_, _) => [entries[0]] + ReadableAttributes(entries[1..])
  }

  function ScanRestore(entries: seq<AttributeEntry>, account: string): bool {
    if |entries| == 0 then false
    else match entries[0]
      case MalformedAttribute => false
      case Attribute(name, values) => (name == "restore" && account in values) || ScanRestore(entries[1..], account)
  }

  /** check_snapshot_shared: is `account` among the values of a 'restore' attribute? */
  function CheckSnapshotShared(r: AttributesResponse, account: string): bool {
    match r
    case NoAttributes => false
    case Attributes(es) => ScanRestore(es, account)
  }

  lemma {:induction false} ScanRestoreIff(entries: seq<AttributeEntry>, account: string)
    ensures ScanRestore(entries, account) <==>
      exists a :: a in ReadableAttributes(entries) && a.Attribute? && a.name == "restore" && account in a.values
  {
    if |entries| > 0 && entries[0].Attribute? {
      ScanRestoreIff(entries[1..], account);
      assert ReadableAttributes(entries) == [entries[0]] + ReadableAttributes(entries[1..]);
    }
  }

  lemma CheckSnapshotSharedIff(r: AttributesResponse, account: string)
    ensures CheckSnapshotShared(r, account) <==>
      r.Attributes? &&
      exists a :: a in ReadableAttributes(r.entries) && a.Attribute? && a.name == "restore" && account in a.values
  {
    if r.Attributes? {
      ScanRestoreIff(r.entries, account);
    }
  }
}
