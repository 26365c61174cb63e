/** Raw Git commit objects: header lines, parents and tree, as checker and producer read them. */
module CommitBody {
  import opened ByteStrings
  import opened Violations

  /** `raw.partition(b"\n\n")[0]`. */
  function HeaderLength(raw: Bytes, from: nat): (k: nat)
    requires from <= |raw|
    ensures from <= k <= |raw|
    ensures k == |raw| || (k + 1 < |raw| && raw[k] == '\n' && raw[k + 1] == '\n')
    decreases |raw| - from
  {
    if from == |raw| then from
    else if from + 1 < |raw| && raw[from] == '\n' && raw[from + 1] == '\n' then from
    else HeaderLength(raw, from + 1)
  }

  function Header(raw: Bytes): Bytes {
    raw[..HeaderLength(raw, 0)]
  }

  predicate HasSeparator(raw: Bytes) {
    HeaderLength(raw, 0) < |raw|
  }

  /** The characters `str.splitlines` breaks ASCII text at. */
  predicate LineBreak(c: char) {
    c as int in {0x0A, 0x0B, 0x0C, 0x0D, 0x1C, 0x1D, 0x1E}
  }

  function LineEnd(s: Bytes, from: nat): (k: nat)
    requires from <= |s|
    ensures from <= k <= |s|
    decreases |s| - from
  {
    if from == |s| || LineBreak(s[from]) then from else LineEnd(s, from + 1)
  }

  /** `str.splitlines` on ASCII text. */
  function SplitLines(s: Bytes): seq<Bytes>
    decreases |s|
  {
    if s == [] then []
    else
      var k := LineEnd(s, 0);
      if k == |s| then [s]
      else
        var crlf := s[k] == '\r' && k + 1 < |s| && s[k + 1] == '\n';
        [s[..k]] + SplitLines(s[if crlf then k + 2 else k + 1..])
  }

  predicate StartsWith(line: Bytes, prefix: Bytes) {
    prefix <= line
  }

  /** The lines of a decodable header; an undecodable one counts as having none. */
  function HeaderLines(raw: Bytes): seq<Bytes> {
    if Ascii(Header(raw)) then SplitLines(Header(raw)) else []
  }

  predicate TreeLine(line: Bytes) {
    StartsWith(line, "tree ") && FullSha(line[5..])
  }

  /** The text after "parent " of every parent line, in order. */
  function ParentsIn(lines: seq<Bytes>): seq<Bytes> {
    if lines == [] then []
    else (if StartsWith(lines[0], "parent ") then [lines[0][7..]] else []) + ParentsIn(lines[1..])
  }

  /** `header[0].removeprefix("tree ")`, or nothing for an empty header. */
  function FirstLineTree(lines: seq<Bytes>): Bytes {
    if lines == [] then []
    else if StartsWith(lines[0], "tree ") then lines[0][5..]
    else lines[0]
  }

  /** `next((line for line in lines if line.startswith("tree ")), "")[5:]`. */
  function SearchedTree(lines: seq<Bytes>): Bytes {
    if lines == [] then []
    else if StartsWith(lines[0], "tree ") then lines[0][5..]
    else SearchedTree(lines[1..])
  }

  ghost predicate AllFull(ids: seq<Bytes>) {
    forall i :: 0 <= i < |ids| ==> FullSha(ids[i])
  }

  /** What the checker demands of a commit object. */
  ghost predicate WellFormedCommit(raw: Bytes) {
    var lines := HeaderLines(raw);
    && HasSeparator(raw)
    && lines != [] && TreeLine(lines[0])
    && (exists i :: 0 <= i < |lines| && StartsWith(lines[i], "author "))
    && (exists i :: 0 <= i < |lines| && StartsWith(lines[i], "committer "))
    && AllFull(ParentsIn(lines))
  }

  /** `parse_git_commit_body`. */
  method ParseCommitBody(raw: Bytes, violations: ViolationList) returns (parents: seq<Bytes>, tree: Bytes)
    modifies violations
    ensures old(violations.items) <= violations.items
    ensures violations.items == old(violations.items) <==> WellFormedCommit(raw)
    ensures parents == ParentsIn(HeaderLines(raw)) && tree == FirstLineTree(HeaderLines(raw))
  {
    var lines := HeaderLines(raw);
    if !HasSeparator(raw)
       || lines == []
       || !TreeLine(lines[0])
       || !(exists i :: 0 <= i < |lines| && StartsWith(lines[i], "author "))
       || !(exists i :: 0 <= i < |lines| && StartsWith(lines[i], "committer "))
    {
      violations.Append(InvalidCommitHeaders);
    }
    parents := ParentsIn(lines);
    if !forall i :: 0 <= i < |parents| ==> FullSha(parents[i]) {
      violations.Append(InvalidParentId);
    }
    tree := FirstLineTree(lines);
  }

  /** On a commit the checker takes, the producer's search finds the same tree. */
  lemma SameTree(raw: Bytes)
    requires WellFormedCommit(raw)
    ensures SearchedTree(HeaderLines(raw)) == FirstLineTree(HeaderLines(raw))
    ensures FullSha(FirstLineTree(HeaderLines(raw)))
    ensures Ascii(Header(raw)) && HeaderLines(raw) == SplitLines(Header(raw))
  {
  }
}
