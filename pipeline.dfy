/** The whole scan (scanAndReplaceDuplicates, main.go:170-189) run as one
    sequential interleaving: walk the tree, hash every emitted path, then
    resolve every record in order. */
module Pipeline {
  import opened Types
  import opened Hashing
  import opened Traversal
  import opened Resolver

  /** The disk as both views see it: the tree ReadDir and Lstat report,
      and the table plus the contents and link targets at each path. */
  datatype World = World(store: Store, tree: Node)

  /** The tree and the file map agree: every path the walk emits is a
      regular file in the map. */
  predicate Agrees(root: Path, tree: Node, fs: Fs)
  {
    forall p :: p in Walk(root, tree) ==> p in fs && fs[p].Regular?
  }

  // ---------------------------------------------------------------------
  // The hashing stage
  // ---------------------------------------------------------------------

  /** The records the hashing workers send (processFile, main.go:84-97): one
      per emitted path whose hash succeeds, in order; a failed hash drops
      the path. Scripts beyond the given ones are clean. */
  function Records(sum: Sha256, fs: Fs, paths: seq<Path>, scripts: seq<IoScript>): (ops: seq<FileOp>)
    ensures forall j :: 0 <= j < |ops| ==>
              && ops[j].path in paths && ops[j].path in fs && fs[ops[j].path].Regular?
              && ops[j].hash == Fingerprint(sum, fs[ops[j].path].content)
    ensures |ops| <= |paths|
    decreases |paths|
  {
    if paths == [] then []
    else
      var rest := Records(sum, fs, paths[1..], Rest(scripts));
      match HashFile(sum, fs, paths[0], FirstOr(scripts, Clean))
      case Ok(h) => [FileOp(paths[0], h)] + rest
      case Err(_) => rest
  }

  /** The script the hashing of the `i`-th path runs under. */
  function ScriptAt(scripts: seq<IoScript>, i: nat): IoScript
  {
    if i < |scripts| then scripts[i] else Clean
  }

  /** A path whose hash succeeds is sent with the fingerprint it computed. */
  lemma {:induction false} HashedIsSent(sum: Sha256, fs: Fs, paths: seq<Path>, scripts: seq<IoScript>, i: nat)
    requires i < |paths| && HashFile(sum, fs, paths[i], ScriptAt(scripts, i)).Ok?
    ensures FileOp(paths[i], HashFile(sum, fs, paths[i], ScriptAt(scripts, i)).value)
              in Records(sum, fs, paths, scripts)
    decreases i
  {
    if i > 0 {
      assert ScriptAt(Rest(scripts), i - 1) == ScriptAt(scripts, i);
      assert paths[1..][i - 1] == paths[i];
      HashedIsSent(sum, fs, paths[1..], Rest(scripts), i - 1);
    }
  }

  /** A path whose hash fails is dropped: no record names it, when the walk
      listed it once. */
  lemma {:induction false} FailedHashDrops(sum: Sha256, fs: Fs, paths: seq<Path>, scripts: seq<IoScript>, i: nat)
    requires i < |paths| && HashFile(sum, fs, paths[i], ScriptAt(scripts, i)).Err?
    requires forall j :: 0 <= j < |paths| && j != i ==> paths[j] != paths[i]
    ensures forall op :: op in Records(sum, fs, paths, scripts) ==> op.path != paths[i]
    decreases i
  {
    var rest := Records(sum, fs, paths[1..], Rest(scripts));
    if i == 0 {
      forall op | op in rest ensures op.path != paths[0] {
        var j :| 0 <= j < |rest| && rest[j] == op;
        var k :| 0 <= k < |paths[1..]| && paths[1..][k] == op.path;
        assert paths[k + 1] == op.path;
      }
    } else {
      assert ScriptAt(Rest(scripts), i - 1) == ScriptAt(scripts, i);
      assert paths[1..][i - 1] == paths[i];
      forall j | 0 <= j < |paths[1..]| && j != i - 1 ensures paths[1..][j] != paths[1..][i - 1] {
        assert paths[1..][j] == paths[j + 1];
      }
      FailedHashDrops(sum, fs, paths[1..], Rest(scripts), i - 1);
      assert paths[0] != paths[i];
    }
  }

  /** Without injected faults every regular file gets its record. */
  lemma {:induction false} CleanRecords(sum: Sha256, fs: Fs, paths: seq<Path>)
    requires forall i :: 0 <= i < |paths| ==> paths[i] in fs && fs[paths[i]].Regular?
    ensures forall i :: 0 <= i < |paths| ==>
              FileOp(paths[i], Fingerprint(sum, fs[paths[i]].content)) in Records(sum, fs, paths, [])
    decreases |paths|
  {
    if paths != [] {
      NoFaultReachesEof(fs[paths[0]].content, 0, []);
      CleanRecords(sum, fs, paths[1..]);
      forall i | 1 <= i < |paths|
        ensures FileOp(paths[i], Fingerprint(sum, fs[paths[i]].content)) in Records(sum, fs, paths, [])
      {
        assert paths[i] == paths[1..][i - 1];
      }
    }
  }

  // ---------------------------------------------------------------------
  // The tree after a run
  // ---------------------------------------------------------------------

  /** The tree after the resolver has changed the files: each regular leaf
      becomes what the file map holds at its path now (still a regular
      file, a symbolic link, or gone). Directories are never changed. */
  function Reread(dir: Path, node: Node, fs: Fs): Node
    decreases node
  {
    match node
    case DirNode(Readable(es)) => DirNode(Readable(RereadEntries(dir, es, fs)))
    case _ => node
  }

  function RereadEntries(dir: Path, es: seq<Entry>, fs: Fs): seq<Entry>
    decreases es
  {
    if es == [] then [] else RereadEntry(dir, es[0], fs) + RereadEntries(dir, es[1..], fs)
  }

  function RereadEntry(dir: Path, e: Entry, fs: Fs): seq<Entry>
    decreases e
  {
    var path := dir + [e.name];
    match e.stat
    case Found(RegularNode) =>
      if path !in fs then []
      else if fs[path].Regular? then [e]
      else [Entry(e.name, Found(SymlinkNode))]
    case Found(DirNode(_)) => [Entry(e.name, Found(Reread(path, e.stat.node, fs)))]
    case _ => [e]
  }

  /** The paths of `ps` that are regular files in `fs`, in order. */
  function KeepRegular(ps: seq<Path>, fs: Fs): (r: seq<Path>)
    ensures forall p :: p in r <==> p in ps && p in fs && fs[p].Regular?
  {
    if ps == [] then []
    else (if ps[0] in fs && fs[ps[0]].Regular? then [ps[0]] else []) + KeepRegular(ps[1..], fs)
  }

  lemma {:induction false} KeepRegularAppend(a: seq<Path>, b: seq<Path>, fs: Fs)
    ensures KeepRegular(a + b, fs) == KeepRegular(a, fs) + KeepRegular(b, fs)
  {
    if a == [] {
      assert a + b == b;
    } else {
      assert (a + b)[0] == a[0] && (a + b)[1..] == a[1..] + b;
      KeepRegularAppend(a[1..], b, fs);
    }
  }

  lemma {:induction false} RereadEntriesAppend(dir: Path, a: seq<Entry>, b: seq<Entry>, fs: Fs)
    ensures RereadEntries(dir, a + b, fs) == RereadEntries(dir, a, fs) + RereadEntries(dir, b, fs)
  {
    if a == [] {
      assert a + b == b;
    } else {
      assert (a + b)[0] == a[0] && (a + b)[1..] == a[1..] + b;
      RereadEntriesAppend(dir, a[1..], b, fs);
    }
  }

  /** Walking the changed tree emits exactly the emitted paths of the old
      tree that are still regular files: replaced duplicates are now links,
      which Lstat reports as such, and are skipped. */
  lemma {:induction false} WalkReread(dir: Path, node: Node, fs: Fs)
    ensures Walk(dir, Reread(dir, node, fs)) == KeepRegular(Walk(dir, node), fs)
    decreases node
  {
    match node
    case DirNode(Readable(es)) => WalkRereadEntries(dir, es, fs);
    case _ =>
  }

  lemma {:induction false} WalkRereadEntries(dir: Path, es: seq<Entry>, fs: Fs)
    ensures WalkEntries(dir, RereadEntries(dir, es, fs)) == KeepRegular(WalkEntries(dir, es), fs)
    decreases es
  {
    if es != [] {
      WalkEntriesAppend(dir, RereadEntry(dir, es[0], fs), RereadEntries(dir, es[1..], fs));
      KeepRegularAppend(EntryPaths(dir, es[0]), WalkEntries(dir, es[1..]), fs);
      WalkRereadEntry(dir, es[0], fs);
      WalkRereadEntries(dir, es[1..], fs);
    }
  }

  lemma {:induction false} WalkRereadEntry(dir: Path, e: Entry, fs: Fs)
    ensures WalkEntries(dir, RereadEntry(dir, e, fs)) == KeepRegular(EntryPaths(dir, e), fs)
    decreases e
  {
    var path := dir + [e.name];
    var m := RereadEntry(dir, e, fs);
    if e.stat.Found? && e.stat.node.RegularNode? {
      RereadRegularEntry(dir, e, fs);
    } else if e.stat.Found? && e.stat.node.DirNode? {
      assert m == [Entry(e.name, Found(Reread(path, e.stat.node, fs)))];
      WalkReread(path, e.stat.node, fs);
      SingleEntryWalk(dir, m[0]);
      assert EntryPaths(dir, m[0]) == Walk(path, Reread(path, e.stat.node, fs));
      assert EntryPaths(dir, e) == Walk(path, e.stat.node);
    } else {
      assert m == [e];
      SingleEntryWalk(dir, e);
      assert EntryPaths(dir, e) == [];
    }
  }

  lemma RereadRegularEntry(dir: Path, e: Entry, fs: Fs)
    requires e.stat == Found(RegularNode)
    ensures WalkEntries(dir, RereadEntry(dir, e, fs)) == KeepRegular(EntryPaths(dir, e), fs)
  {
    var path := dir + [e.name];
    var m := RereadEntry(dir, e, fs);
    assert EntryPaths(dir, e) == [path];
    assert KeepRegular([path], fs) == if path in fs && fs[path].Regular? then [path] else [];
    if m != [] {
      SingleEntryWalk(dir, m[0]);
    }
  }

  lemma SingleEntryWalk(dir: Path, e: Entry)
    ensures WalkEntries(dir, [e]) == EntryPaths(dir, e)
  {
    assert WalkEntries(dir, [e]) == EntryPaths(dir, e) + WalkEntries(dir, []);
  }

  /** Applying the same file map twice changes the tree no further. */
  lemma {:induction false} RereadIdempotent(dir: Path, node: Node, fs: Fs)
    ensures Reread(dir, Reread(dir, node, fs), fs) == Reread(dir, node, fs)
    decreases node
  {
    match node
    case DirNode(Readable(es)) => RereadEntriesIdempotent(dir, es, fs);
    case _ =>
  }

  lemma {:induction false} RereadEntriesIdempotent(dir: Path, es: seq<Entry>, fs: Fs)
    ensures RereadEntries(dir, RereadEntries(dir, es, fs), fs) == RereadEntries(dir, es, fs)
    decreases es
  {
    if es != [] {
      RereadEntriesAppend(dir, RereadEntry(dir, es[0], fs), RereadEntries(dir, es[1..], fs), fs);
      RereadEntryIdempotent(dir, es[0], fs);
      RereadEntriesIdempotent(dir, es[1..], fs);
    }
  }

  lemma {:induction false} RereadEntryIdempotent(dir: Path, e: Entry, fs: Fs)
    ensures RereadEntries(dir, RereadEntry(dir, e, fs), fs) == RereadEntry(dir, e, fs)
    decreases e
  {
    var path := dir + [e.name];
    var m := RereadEntry(dir, e, fs);
    if m != [] {
      assert RereadEntries(dir, m, fs) == RereadEntry(dir, m[0], fs) + RereadEntries(dir, [], fs);
      if e.stat.Found? && e.stat.node.DirNode? {
        RereadIdempotent(path, e.stat.node, fs);
      }
    }
  }

  // ---------------------------------------------------------------------
  // One pass, and the second pass
  // ---------------------------------------------------------------------

  /** One run of the tool: walk, hash, resolve, and the tree that results. */
  function Pass(sum: Sha256, root: Path, w: World, scripts: seq<IoScript>, outcomes: seq<Outcome>): World
  {
    var ops := Records(sum, w.store.fs, Walk(root, w.tree), scripts);
    var t := Run(w.store, ops, outcomes);
    World(t, Reread(root, w.tree, t.fs))
  }

  /** Whatever fails during a run, the tree and the file map still agree
      afterwards: what the walk emits is exactly what is still regular. */
  lemma PassKeepsAgreement(sum: Sha256, root: Path, w: World, scripts: seq<IoScript>, outcomes: seq<Outcome>)
    ensures Agrees(root, Pass(sum, root, w, scripts, outcomes).tree, Pass(sum, root, w, scripts, outcomes).store.fs)
  {
    var w1 := Pass(sum, root, w, scripts, outcomes);
    WalkReread(root, w.tree, w1.store.fs);
  }

  /** Idempotence: after a run in which nothing fails, running again over
      the resulting tree with the resulting table changes nothing, even if
      calls fail during the second run. */
  lemma SecondPassChangesNothing(sum: Sha256, root: Path, w: World, scripts: seq<IoScript>, outcomes: seq<Outcome>)
    requires Agrees(root, w.tree, w.store.fs)
    ensures var w1 := Pass(sum, root, w, [], []);
            Pass(sum, root, w1, scripts, outcomes) == w1
  {
    var s := w.store;
    var paths := Walk(root, w.tree);
    var ops := Records(sum, s.fs, paths, []);
    var t := Run(s, ops, []);
    var tree1 := Reread(root, w.tree, t.fs);
    // the first run settles every record
    CleanRecords(sum, s.fs, paths);
    RunSettles(s, ops);
    // the second run sees the paths that are still regular files
    WalkReread(root, w.tree, t.fs);
    var ops1 := Records(sum, t.fs, Walk(root, tree1), scripts);
    forall j | 0 <= j < |ops1|
      ensures ops1[j].path != [] && Stored(t.index, ops1[j].hash) == ops1[j].path
    {
      var p := ops1[j].path;
      assert p in paths;
      RunKeepsContent(s, ops, [], p);
      var op := FileOp(p, Fingerprint(sum, s.fs[p].content));
      assert op == ops1[j];
      var k :| 0 <= k < |paths| && paths[k] == p;
      assert op in ops;
      var m :| 0 <= m < |ops| && ops[m] == op;
      assert Settled(t, ops[m]);
    }
    SettledRunIsNoOp(t, ops1, outcomes);
    RereadIdempotent(root, w.tree, t.fs);
  }

  /** scanAndReplaceDuplicates (main.go:170-189) with the worker pools of
      newWorkerPool run one stage after another: the walk first, then every
      hash, then every record in the order the walk emitted them. Returns
      the tree as ReadDir and Lstat see it afterwards. */
  method Scan(sum: Sha256, root: Path, tree: Node, d: Deduper, scripts: seq<IoScript>, outcomes: seq<Outcome>)
    returns (after: Node)
    modifies d
    ensures World(Store(d.index, d.fs), after)
         == Pass(sum, root, World(old(Store(d.index, d.fs)), tree), scripts, outcomes)
  {
    var paths := ProcessDirectory(root, tree);
    var fs := d.fs;
    var ops: seq<FileOp> := [];
    var pending := scripts;
    var i := 0;
    while i < |paths|
      invariant 0 <= i <= |paths|
      invariant ops + Records(sum, fs, paths[i..], pending) == Records(sum, fs, paths, scripts)
      invariant unchanged(d)
    {
      var r := Sha256File(sum, fs, paths[i], FirstOr(pending, Clean));
      assert Records(sum, fs, paths[i..], pending)
          == (if r.Ok? then [FileOp(paths[i], r.value)] else []) + Records(sum, fs, paths[i + 1..], Rest(pending)) by {
        assert paths[i..][0] == paths[i] && paths[i..][1..] == paths[i + 1..];
      }
      if r.Ok? {
        ops := ops + [FileOp(paths[i], r.value)];
      }
      pending := Rest(pending);
      i := i + 1;
    }
    assert paths[i..] == [];
    assert ops == Records(sum, old(d.fs), Walk(root, tree), scripts);
    d.ResolveAll(ops, outcomes);
    after := Reread(root, tree, d.fs);
  }
}
