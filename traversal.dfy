/** The traversal engine: processDirectory (main.go:99-127), which lists a
    directory, classifies every entry with Lstat (which does not follow
    symbolic links), emits regular files and descends into directories. */
module Traversal {
  import opened Types

  /** A directory tree as os.ReadDir and os.Lstat report it. A symbolic link
      is a leaf: Lstat describes the link itself, never what it points to. */
  datatype Node =
    | DirNode(listing: Listing)
    | RegularNode
    | SymlinkNode
    | OtherNode

  /** What os.ReadDir returns for a directory: its entries in order, or an error. */
  datatype Listing = Readable(entries: seq<Entry>) | Unreadable

  /** A directory entry and what os.Lstat reports for it. */
  datatype Entry = Entry(name: Name, stat: Stat)

  datatype Stat = Found(node: Node) | LstatFailed

  // ---------------------------------------------------------------------
  // The walk as a function
  // ---------------------------------------------------------------------

  /** The regular-file paths processDirectory(dir) sends, in order. */
  function Walk(dir: Path, node: Node): (ps: seq<Path>)
    ensures forall i :: 0 <= i < |ps| ==> |ps[i]| > |dir| && ps[i][..|dir|] == dir
    decreases node
  {
    match node
    case DirNode(Readable(es)) => WalkEntries(dir, es)
    case _ => []
  }

  function WalkEntries(dir: Path, es: seq<Entry>): (ps: seq<Path>)
    ensures forall i :: 0 <= i < |ps| ==> |ps[i]| > |dir| && ps[i][..|dir|] == dir
    decreases es
  {
    if es == [] then [] else EntryPaths(dir, es[0]) + WalkEntries(dir, es[1..])
  }

  /** What one entry of `dir` contributes (main.go:109-125). */
  function EntryPaths(dir: Path, e: Entry): (ps: seq<Path>)
    ensures forall i :: 0 <= i < |ps| ==> |ps[i]| > |dir| && ps[i][..|dir|] == dir
    decreases e
  {
    var path := dir + [e.name];
    match e.stat
    case LstatFailed => []
    case Found(RegularNode) => [path]
    case Found(DirNode(_)) =>
      var ps := Walk(path, e.stat.node);
      assert forall i :: 0 <= i < |ps| ==> ps[i][..|dir|] == path[..|dir|];
      ps
    case Found(_) => []
  }

  // ---------------------------------------------------------------------
  // processDirectory
  // ---------------------------------------------------------------------

  /** processDirectory (main.go:99-127), with the goroutine spawned for each
      subdirectory run to completion on the spot, and the path channel
      replaced by the sequence of paths sent to it. */
  method ProcessDirectory(dir: Path, node: Node) returns (emitted: seq<Path>)
    ensures emitted == Walk(dir, node)
    decreases node
  {
    emitted := [];
    if !node.DirNode? || node.listing.Unreadable? {
      return;  // ReadDir failed
    }
    var es := node.listing.entries;
    var i := 0;
    while i < |es|
      invariant 0 <= i <= |es|
      invariant emitted + WalkEntries(dir, es[i..]) == WalkEntries(dir, es)
    {
      var e := es[i];
      var path := dir + [e.name];
      ghost var contribution := EntryPaths(dir, e);
      assert WalkEntries(dir, es[i..]) == contribution + WalkEntries(dir, es[i + 1..]) by {
        assert es[i..][0] == e && es[i..][1..] == es[i + 1..];
      }
      if e.stat.LstatFailed? {
        assert contribution == [];
      } else if e.stat.node.RegularNode? {
        assert contribution == [path];
        emitted := emitted + [path];
      } else if e.stat.node.DirNode? {
        var sub := ProcessDirectory(path, e.stat.node);
        assert contribution == sub;
        emitted := emitted + sub;
      } else {
        assert contribution == [];
      }
      i := i + 1;
    }
  }

  // ---------------------------------------------------------------------
  // What the walk emits
  // ---------------------------------------------------------------------

  /** Following the names of `rel` down from `node`, through readable
      directories and entries Lstat can describe, ends at a regular file. */
  predicate RegularAt(node: Node, rel: Path)
    decreases node
  {
    if rel == [] then node == RegularNode
    else
      node.DirNode? && node.listing.Readable? &&
      exists j :: 0 <= j < |node.listing.entries| && Leads(node.listing.entries[j], rel)
  }

  predicate Leads(e: Entry, rel: Path)
    requires rel != []
    decreases e
  {
    e.name == rel[0] && e.stat.Found? && RegularAt(e.stat.node, rel[1..])
  }

  lemma {:induction false} WalkEntriesAppend(dir: Path, a: seq<Entry>, b: seq<Entry>)
    ensures WalkEntries(dir, a + b) == WalkEntries(dir, a) + WalkEntries(dir, b)
  {
    if a == [] {
      assert a + b == b;
    } else {
      assert (a + b)[0] == a[0] && (a + b)[1..] == a[1..] + b;
      WalkEntriesAppend(dir, a[1..], b);
    }
  }

  /** Every emitted path names a regular file reached through directories
      only: no symbolic link is emitted, and none is followed. */
  lemma {:induction false} WalkSound(dir: Path, node: Node, p: Path)
    requires p in Walk(dir, node)
    ensures |p| > |dir| && p[..|dir|] == dir && RegularAt(node, p[|dir|..])
    decreases node
  {
    match node
    case DirNode(Readable(es)) => WalkEntriesSound(dir, es, p);
  }

  lemma {:induction false} WalkEntriesSound(dir: Path, es: seq<Entry>, p: Path)
    requires p in WalkEntries(dir, es)
    ensures |p| > |dir| && p[..|dir|] == dir
    ensures exists j :: 0 <= j < |es| && Leads(es[j], p[|dir|..])
    decreases es
  {
    if p in EntryPaths(dir, es[0]) {
      EntrySound(dir, es[0], p);
    } else {
      WalkEntriesSound(dir, es[1..], p);
      var j :| 0 <= j < |es[1..]| && Leads(es[1..][j], p[|dir|..]);
      assert Leads(es[j + 1], p[|dir|..]);
    }
  }

  lemma {:induction false} EntrySound(dir: Path, e: Entry, p: Path)
    requires p in EntryPaths(dir, e)
    ensures |p| > |dir| && p[..|dir|] == dir && Leads(e, p[|dir|..])
    decreases e
  {
    var path := dir + [e.name];
    match e.stat
    case Found(RegularNode) =>
      assert p == path;
      assert p[|dir|..] == [e.name];
    case Found(DirNode(_)) =>
      WalkSound(path, e.stat.node, p);
      assert p[|dir|..][0] == e.name;
      assert p[|dir|..][1..] == p[|path|..];
  }

  /** Every regular file reachable through readable directories is emitted. */
  lemma {:induction false} WalkComplete(dir: Path, node: Node, rel: Path)
    requires rel != [] && RegularAt(node, rel)
    ensures dir + rel in Walk(dir, node)
    decreases node
  {
    var es := node.listing.entries;
    var j :| 0 <= j < |es| && Leads(es[j], rel);
    var e := es[j];
    var path := dir + [e.name];
    assert e.stat.Found? && RegularAt(e.stat.node, rel[1..]);
    if rel[1..] == [] {
      assert e.stat.node == RegularNode;
      assert dir + rel == path;
      assert EntryPaths(dir, e) == [path];
    } else {
      assert e.stat.node.DirNode?;
      WalkComplete(path, e.stat.node, rel[1..]);
      assert dir + rel == path + rel[1..];
      assert EntryPaths(dir, e) == Walk(path, e.stat.node);
    }
    InWalkEntries(dir, es, j, dir + rel);
  }

  lemma {:induction false} InWalkEntries(dir: Path, es: seq<Entry>, j: nat, p: Path)
    requires j < |es| && p in EntryPaths(dir, es[j])
    ensures p in WalkEntries(dir, es)
    decreases j
  {
    if j > 0 {
      InWalkEntries(dir, es[1..], j - 1, p);
    }
  }

  /** An entry Lstat cannot describe is skipped and nothing else: the walk
      is the same as if that entry were not listed. */
  lemma LstatFailureIsLocal(dir: Path, es: seq<Entry>, j: nat)
    requires j < |es| && es[j].stat.LstatFailed?
    ensures WalkEntries(dir, es) == WalkEntries(dir, es[..j] + es[j + 1..])
  {
    assert es == es[..j] + ([es[j]] + es[j + 1..]);
    WalkEntriesAppend(dir, es[..j], [es[j]] + es[j + 1..]);
    WalkEntriesAppend(dir, es[..j], es[j + 1..]);
    assert WalkEntries(dir, [es[j]] + es[j + 1..]) == WalkEntries(dir, es[j + 1..]) by {
      assert ([es[j]] + es[j + 1..])[1..] == es[j + 1..];
    }
  }

  /** A directory ReadDir cannot list contributes nothing, and its siblings
      are walked as if it were an empty directory. */
  lemma UnreadableIsLocal(dir: Path, es: seq<Entry>, j: nat)
    requires j < |es| && es[j].stat == Found(DirNode(Unreadable))
    ensures WalkEntries(dir, es)
         == WalkEntries(dir, es[j := Entry(es[j].name, Found(DirNode(Readable([]))))])
  {
    var es' := es[j := Entry(es[j].name, Found(DirNode(Readable([]))))];
    assert es == es[..j] + ([es[j]] + es[j + 1..]);
    assert es' == es[..j] + ([es'[j]] + es[j + 1..]);
    WalkEntriesAppend(dir, es[..j], [es[j]] + es[j + 1..]);
    WalkEntriesAppend(dir, es[..j], [es'[j]] + es[j + 1..]);
    assert ([es[j]] + es[j + 1..])[1..] == es[j + 1..];
    assert ([es'[j]] + es[j + 1..])[1..] == es[j + 1..];
    assert EntryPaths(dir, es[j]) == [] == EntryPaths(dir, es'[j]) by {
      assert Walk(dir + [es[j].name], DirNode(Unreadable)) == [];
      assert Walk(dir + [es[j].name], DirNode(Readable([]))) == WalkEntries(dir + [es[j].name], []);
    }
  }
}
