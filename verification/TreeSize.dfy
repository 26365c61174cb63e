/** How large a tree is once expanded: directories, leaves and path bytes. */
module TreeSize {
  import opened ByteStrings
  import opened GitPaths
  import opened RawTree
  import opened TreeMeaning
  import opened Frontier
  import opened Results

  // ----- sums of path lengths

  /** The bytes of all paths in a set of name lists. */
  ghost function Total(s: set<Names>): nat {
    if s == {} then 0
    else
      var x :| x in s;
      |Join(x)| + Total(s - {x})
  }

  lemma {:induction false} TotalAdd(s: set<Names>, x: Names)
    requires x !in s
    ensures Total(s + {x}) == Total(s) + |Join(x)|
    decreases s
  {
    hide Join;
    var t := s + {x};
    var y :| y in t && Total(t) == |Join(y)| + Total(t - {y});
    if y == x {
      assert t - {x} == s;
    } else {
      assert t - {y} == (s - {y}) + {x};
      TotalAdd(s - {y}, x);
      TotalAdd(s - {y}, y);
      assert (s - {y}) + {y} == s;
    }
  }

  lemma {:induction false} TotalMonotone(s: set<Names>, t: set<Names>)
    requires s <= t
    ensures Total(s) <= Total(t)
    decreases t
  {
    hide Join;
    if s != t {
      var x :| x in t && x !in s;
      TotalMonotone(s, t - {x});
      TotalAdd(t - {x}, x);
      assert (t - {x}) + {x} == t;
    }
  }

  lemma {:induction false} TotalUnion(s: set<Names>, t: set<Names>)
    requires s !! t
    ensures Total(s + t) == Total(s) + Total(t)
    decreases t
  {
    hide Join;
    if t == {} {
      assert s + t == s;
    } else {
      var x :| x in t;
      TotalUnion(s, t - {x});
      TotalAdd(s + (t - {x}), x);
      TotalAdd(t - {x}, x);
      assert s + (t - {x}) + {x} == s + t && (t - {x}) + {x} == t;
    }
  }

  lemma {:induction false} SubsetSize<T>(s: set<T>, t: set<T>)
    requires s <= t
    ensures |s| <= |t|
    decreases t
  {
    if s != {} {
      var x :| x in s;
      SubsetSize(s - {x}, t - {x});
    }
  }

  // ----- the directories of a tree

  ghost function DirEntries(trees: Trees, root: Bytes, names: Names): seq<Entry> {
    match DirAt(trees, root, names)
    case None => []
    case Some(d) => EntriesOf(trees, d)
  }

  ghost function Subdirs(trees: Trees, root: Bytes, ds: set<Names>): set<Names> {
    set d, e | d in ds && e in DirEntries(trees, root, d) && e.kind == TreeKind :: d + [e.name]
  }

  /** The directories at most `depth` names deep. */
  ghost function Dirs(trees: Trees, root: Bytes, depth: nat): set<Names> {
    if depth == 0 then {[]}
    else Dirs(trees, root, depth - 1) + Subdirs(trees, root, Dirs(trees, root, depth - 1))
  }

  lemma SubdirOf(trees: Trees, root: Bytes, ds: set<Names>, names: Names) returns (d: Names, e: Entry)
    requires names in Subdirs(trees, root, ds)
    ensures d in ds && e in DirEntries(trees, root, d) && e.kind == TreeKind && names == d + [e.name]
  {
    hide DirEntries;
    d, e :| d in ds && e in DirEntries(trees, root, d) && e.kind == TreeKind && names == d + [e.name];
  }

  lemma SubdirSound(trees: Trees, root: Bytes, d: Names, e: Entry)
    requires NamedTrees(trees) && DirAt(trees, root, d).Some? && e in DirEntries(trees, root, d) && e.kind == TreeKind
    ensures DirAt(trees, root, d + [e.name]).Some?
  {
    hide NamedTrees, EntriesOf, EntryNamed, DirAt;
    StepDir(trees, root, d, e);
  }

  lemma {:induction false} DirsSound(trees: Trees, root: Bytes, depth: nat, names: Names)
    requires NamedTrees(trees) && names in Dirs(trees, root, depth)
    ensures |names| <= depth && DirAt(trees, root, names).Some?
  {
    hide NamedTrees, DirEntries, Subdirs, DirAt;
    if depth == 0 {
      NoNames(trees, root);
    } else if names in Dirs(trees, root, depth - 1) {
      DirsSound(trees, root, depth - 1, names);
    } else {
      var d, e := SubdirOf(trees, root, Dirs(trees, root, depth - 1), names);
      DirsSound(trees, root, depth - 1, d);
      SubdirSound(trees, root, d, e);
    }
  }

  lemma NoNames(trees: Trees, root: Bytes)
    ensures DirAt(trees, root, []) == Some(root)
  {
  }

  lemma LastStep(trees: Trees, root: Bytes, names: Names) returns (e: Entry)
    requires names != [] && DirAt(trees, root, names).Some?
    ensures DirAt(trees, root, names[..|names| - 1]).Some?
    ensures e in DirEntries(trees, root, names[..|names| - 1]) && e.kind == TreeKind
    ensures names == names[..|names| - 1] + [e.name]
  {
    e := EntryNamed(DirEntries(trees, root, names[..|names| - 1]), names[|names| - 1]).value;
  }

  lemma {:induction false} DirsAll(trees: Trees, root: Bytes, depth: nat, names: Names)
    requires |names| <= depth && DirAt(trees, root, names).Some?
    ensures names in Dirs(trees, root, depth)
  {
    hide DirAt;
    if names == [] {
      if depth > 0 { DirsAll(trees, root, depth - 1, names); }
    } else {
      var e := LastStep(trees, root, names);
      DirsAll(trees, root, depth - 1, names[..|names| - 1]);
    }
  }

  /** Every entry of every directory in `ds`. */
  ghost function NodesUnder(trees: Trees, root: Bytes, ds: set<Names>): set<Names> {
    set d, e | d in ds && e in DirEntries(trees, root, d) :: d + [e.name]
  }

  lemma NodesGrow(trees: Trees, root: Bytes, ds: set<Names>, d: Names)
    requires d !in ds
    ensures NodesUnder(trees, root, ds + {d}) == NodesUnder(trees, root, ds) + Children(d, DirEntries(trees, root, d))
    ensures NodesUnder(trees, root, ds) !! Children(d, DirEntries(trees, root, d))
  {
    var es := DirEntries(trees, root, d);
    forall c | c in NodesUnder(trees, root, ds) ensures c !in Children(d, es) {
      var x, e :| x in ds && e in DirEntries(trees, root, x) && c == x + [e.name];
      assert c[..|c| - 1] == x;
      forall f | f in es ensures d + [f.name] != c {
        assert (d + [f.name])[..|d|] == d;
      }
    }
  }

  lemma NodesMonotone(trees: Trees, root: Bytes, s: set<Names>, t: set<Names>)
    requires s <= t
    ensures NodesUnder(trees, root, s) <= NodesUnder(trees, root, t)
  {
  }

  /** A directory inside another one with the same ID: the tree does not end. */
  ghost predicate Revisits(trees: Trees, root: Bytes, names: Names) {
    exists k :: 0 <= k < |names| && DirAt(trees, root, names[..k]) == DirAt(trees, root, names)
  }

  ghost function AncestorIds(trees: Trees, root: Bytes, names: Names): set<Bytes> {
    set k | 0 <= k < |names| && DirAt(trees, root, names[..k]).Some? :: DirAt(trees, root, names[..k]).value
  }

  lemma AncestorsGrow(trees: Trees, root: Bytes, names: Names, name: Bytes)
    requires DirAt(trees, root, names).Some?
    ensures AncestorIds(trees, root, names + [name]) ==
      AncestorIds(trees, root, names) + {DirAt(trees, root, names).value}
  {
    hide DirAt;
    var longer := names + [name];
    assert forall k :: 0 <= k < |names| ==> longer[..k] == names[..k];
    assert longer[..|names|] == names;
    forall x | x in AncestorIds(trees, root, names) + {DirAt(trees, root, names).value}
      ensures x in AncestorIds(trees, root, longer)
    {
      if x in AncestorIds(trees, root, names) {
        var k :| 0 <= k < |names| && DirAt(trees, root, names[..k]).Some? && x == DirAt(trees, root, names[..k]).value;
        assert 0 <= k < |longer| && longer[..k] == names[..k];
      } else {
        assert 0 <= |names| < |longer| && longer[..|names|] == names;
      }
    }
  }

  lemma RevisitsIffAncestor(trees: Trees, root: Bytes, names: Names)
    requires DirAt(trees, root, names).Some?
    ensures Revisits(trees, root, names) <==> DirAt(trees, root, names).value in AncestorIds(trees, root, names)
  {
    hide DirAt;
  }

  ghost function LeafPaths(trees: Trees, root: Bytes, ds: set<Names>): set<Bytes> {
    set n | n in NodesUnder(trees, root, ds) && LeafAt(trees, root, n).Some? :: Join(n)
  }
}
