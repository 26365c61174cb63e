/** Raw objects keyed by ID, and the graph they stand for. */
module StoredObjects {
  import opened ByteStrings
  import opened CommitBody
  import opened RawTree
  import opened ObjectGraph

  datatype Stored = Stored(kind: Kind, raw: Bytes)

  ghost predicate IsTree(raw: Bytes) {
    exists es :: Encodes(raw, es)
  }

  /** The entries a raw tree encodes; at most one list does. */
  ghost function TreeOf(raw: Bytes): (es: seq<Entry>)
    ensures IsTree(raw) ==> Encodes(raw, es)
  {
    if IsTree(raw) then
      var es :| Encodes(raw, es);
      es
    else []
  }

  lemma TreeOfUnique(raw: Bytes, es: seq<Entry>)
    requires Encodes(raw, es)
    ensures TreeOf(raw) == es
  {
    SerializeInjective(TreeOf(raw), es);
  }

  ghost function NodeOf(s: Stored): Node {
    match s.kind
    case CommitKind => CommitNode(ParentsIn(HeaderLines(s.raw)), FirstLineTree(HeaderLines(s.raw)))
    case TreeKind => TreeNode(TreeOf(s.raw))
    case _ => BlobNode
  }

  /** The object parses without a complaint from the checker. */
  ghost predicate WellFormedObject(s: Stored) {
    && s.kind != InvalidKind
    && (s.kind == CommitKind ==> WellFormedCommit(s.raw))
    && (s.kind == TreeKind ==> IsTree(s.raw))
  }

  ghost function Nodes(store: map<Bytes, Stored>): map<Bytes, Node> {
    map o | o in store :: NodeOf(store[o])
  }

  ghost function GraphOf(store: map<Bytes, Stored>, refs: seq<Bytes>, boundaries: set<Bytes>): Graph {
    Graph(Nodes(store), refs, boundaries)
  }
}
