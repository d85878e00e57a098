/** The dedup resolver: the loop of dbWorker (main.go:137-165), which looks
    each record's fingerprint up in the file_hashes table and either
    registers the path as canonical or replaces the file by a symbolic link
    to the canonical path. */
module Resolver {
  import opened Types

  /** The file_hashes table: fingerprint to the path stored with it. */
  type Index = map<string, Path>

  /** How the calls made for one record turn out: the SELECT (an error
      other than sql.ErrNoRows), the INSERT, os.Remove and os.Symlink. */
  datatype Outcome = Outcome(queryOk: bool, insertOk: bool, removeOk: bool, symlinkOk: bool)

  const AllOk := Outcome(true, true, true, true)

  /** What dbWorker does with one record, as its log lines tell it. */
  datatype Event =
    | Inserted          // no row: the path is now canonical
    | InsertFailed      // no row, and the INSERT failed
    | QueryFailed       // the SELECT failed: record skipped
    | AlreadyCanonical  // the stored path is this very path
    | Replaced          // duplicate removed and linked to the stored path
    | RemoveFailed      // duplicate left in place, no link attempted
    | LinkFailed        // duplicate removed, link not created: content lost

  datatype Store = Store(index: Index, fs: Fs)

  datatype StepResult = StepResult(store: Store, event: Event)

  /** The path the SELECT scans for `hash`; the empty path when there is
      no row, since originalFilePath then keeps its zero value "". */
  function Stored(index: Index, hash: string): Path
  {
    if hash in index then index[hash] else []
  }

  /** One iteration of dbWorker's loop (main.go:137-165). */
  function Step(s: Store, op: FileOp, o: Outcome): (r: StepResult)
    // only op.path is ever touched on disk
    ensures r.store.fs - {op.path} == s.fs - {op.path}
    // no step writes file content: a regular file afterwards was there before
    ensures op.path in r.store.fs && r.store.fs[op.path].Regular? ==>
              op.path in s.fs && s.fs[op.path] == r.store.fs[op.path]
    // the index only ever gains this record's pair, and only when it had no row
    ensures r.store.index == s.index
         || (Stored(s.index, op.hash) == [] && r.store.index == s.index[op.hash := op.path])
    // the decision table
    ensures r.event == QueryFailed <==> !o.queryOk
    ensures r.event == Inserted <==> o.queryOk && Stored(s.index, op.hash) == [] && o.insertOk
    ensures r.event == InsertFailed <==> o.queryOk && Stored(s.index, op.hash) == [] && !o.insertOk
    ensures r.event == AlreadyCanonical <==> o.queryOk && Stored(s.index, op.hash) == op.path != []
    ensures r.event == RemoveFailed <==>
              o.queryOk && Stored(s.index, op.hash) !in {[], op.path} && (!o.removeOk || op.path !in s.fs)
    ensures r.event == LinkFailed <==>
              o.queryOk && Stored(s.index, op.hash) !in {[], op.path} && o.removeOk && op.path in s.fs && !o.symlinkOk
    // the new state for each event
    ensures r.event in {QueryFailed, InsertFailed, AlreadyCanonical, RemoveFailed} ==> r.store == s
    ensures r.event == Inserted ==> r.store == Store(s.index[op.hash := op.path], s.fs)
    ensures r.event == Replaced ==>
              r.store == Store(s.index, s.fs[op.path := Symlink(Stored(s.index, op.hash))])
    ensures r.event == LinkFailed ==> r.store == Store(s.index, s.fs - {op.path})
  {
    if !o.queryOk then StepResult(s, QueryFailed)
    else
      var original := Stored(s.index, op.hash);
      if original != [] && original != op.path then
        if !o.removeOk || op.path !in s.fs then StepResult(s, RemoveFailed)
        else
          var removed := s.fs - {op.path};
          // op.path is gone now, so Symlink fails only when the outcome says so
          if !o.symlinkOk then StepResult(Store(s.index, removed), LinkFailed)
          else StepResult(Store(s.index, removed[op.path := Symlink(original)]), Replaced)
      else if original == [] then
        if o.insertOk then StepResult(Store(s.index[op.hash := op.path], s.fs), Inserted)
        else StepResult(s, InsertFailed)
      else StepResult(s, AlreadyCanonical)
  }

  /** dbWorker's whole loop over the records, in order. Outcomes beyond
      the given ones are all successes. */
  function Run(s: Store, ops: seq<FileOp>, outcomes: seq<Outcome>): Store
    decreases |ops|
  {
    if ops == [] then s
    else Run(Step(s, ops[0], FirstOr(outcomes, AllOk)).store, ops[1..], Rest(outcomes))
  }

  /** The database worker's state: the table and the filesystem. */
  class Deduper {
    var index: Index
    var fs: Fs

    constructor (index: Index, fs: Fs)
      ensures this.index == index && this.fs == fs
    {
      this.index := index;
      this.fs := fs;
    }

    /** The body of dbWorker's loop (main.go:138-165) for one record. */
    method Resolve(op: FileOp, o: Outcome) returns (e: Event)
      modifies this
      ensures StepResult(Store(index, fs), e) == Step(old(Store(index, fs)), op, o)
    {
      if !o.queryOk {
        return QueryFailed;
      }
      var original := Stored(index, op.hash);
      if original != [] && original != op.path {
        if !o.removeOk || op.path !in fs {
          return RemoveFailed;
        }
        fs := fs - {op.path};
        if !o.symlinkOk {
          return LinkFailed;
        }
        fs := fs[op.path := Symlink(original)];
        e := Replaced;
      } else if original == [] {
        if !o.insertOk {
          return InsertFailed;
        }
        index := index[op.hash := op.path];
        e := Inserted;
      } else {
        e := AlreadyCanonical;
      }
    }

    /** dbWorker (main.go:137-166) draining the record channel. */
    method ResolveAll(ops: seq<FileOp>, outcomes: seq<Outcome>)
      modifies this
      ensures Store(index, fs) == Run(old(Store(index, fs)), ops, outcomes)
    {
      var i := 0;
      var pending := outcomes;
      while i < |ops|
        invariant 0 <= i <= |ops|
        invariant Run(Store(index, fs), ops[i..], pending) == Run(old(Store(index, fs)), ops, outcomes)
      {
        assert ops[i..][1..] == ops[i + 1..];
        var _ := Resolve(ops[i], FirstOr(pending, AllOk));
        pending := Rest(pending);
        i := i + 1;
      }
    }
  }

  // ---------------------------------------------------------------------
  // Properties of a sequential run
  // ---------------------------------------------------------------------

  /** The path of the first record with fingerprint `h`, or the empty path. */
  function FirstPathWith(ops: seq<FileOp>, h: string): Path
  {
    if ops == [] then []
    else if ops[0].hash == h then ops[0].path
    else FirstPathWith(ops[1..], h)
  }

  /** In a failure-free run each fingerprint ends with one entry: the one it
      had before, or else the path of the first record seen with it. */
  lemma {:induction false} FirstPathWins(s: Store, ops: seq<FileOp>, h: string)
    requires forall j :: 0 <= j < |ops| ==> ops[j].path != []
    ensures Stored(Run(s, ops, []).index, h)
         == if Stored(s.index, h) != [] then Stored(s.index, h) else FirstPathWith(ops, h)
    decreases |ops|
  {
    if ops != [] {
      var s1 := Step(s, ops[0], AllOk).store;
      FirstPathWins(s1, ops[1..], h);
      if Stored(s.index, h) == [] && ops[0].hash == h {
        assert Stored(s1.index, h) == ops[0].path;
      }
    }
  }

  /** Paths no record names are left as they were. */
  lemma {:induction false} RunFrame(s: Store, ops: seq<FileOp>, outcomes: seq<Outcome>, q: Path)
    requires forall j :: 0 <= j < |ops| ==> ops[j].path != q
    ensures (q in Run(s, ops, outcomes).fs <==> q in s.fs)
    ensures q in s.fs ==> Run(s, ops, outcomes).fs[q] == s.fs[q]
    decreases |ops|
  {
    if ops != [] {
      var s1 := Step(s, ops[0], FirstOr(outcomes, AllOk)).store;
      assert q in s1.fs - {ops[0].path} <==> q in s.fs - {ops[0].path};
      RunFrame(s1, ops[1..], Rest(outcomes), q);
    }
  }

  /** A run writes no file content: a regular file after the run was there,
      unchanged, before it. */
  lemma {:induction false} RunKeepsContent(s: Store, ops: seq<FileOp>, outcomes: seq<Outcome>, q: Path)
    requires q in Run(s, ops, outcomes).fs && Run(s, ops, outcomes).fs[q].Regular?
    ensures q in s.fs && s.fs[q] == Run(s, ops, outcomes).fs[q]
    decreases |ops|
  {
    if ops != [] {
      var s1 := Step(s, ops[0], FirstOr(outcomes, AllOk)).store;
      RunKeepsContent(s1, ops[1..], Rest(outcomes), q);
      if q != ops[0].path {
        assert q in s1.fs - {ops[0].path};
      }
    }
  }

  /** Record `op` has been dealt with: its fingerprint has a canonical path,
      and its path is either that canonical regular file or a link to it. */
  predicate Settled(s: Store, op: FileOp)
  {
    var c := Stored(s.index, op.hash);
    c != [] && op.path in s.fs &&
    ((s.fs[op.path].Regular? && c == op.path) || (s.fs[op.path] == Symlink(c) && c != op.path))
  }

  /** A failure-free step keeps every settled record settled, provided a
      path always comes with the same fingerprint. */
  lemma StepKeepsSettled(s: Store, op: FileOp, r: FileOp)
    requires Settled(s, r)
    requires op.path == r.path ==> op.hash == r.hash
    ensures Settled(Step(s, op, AllOk).store, r)
  {
    var t := Step(s, op, AllOk).store;
    assert Stored(t.index, r.hash) == Stored(s.index, r.hash);
    if op.path != r.path {
      assert r.path in s.fs - {op.path};
    }
  }

  /** A failure-free step settles its own record when the path is a regular
      file or the record is settled already. */
  lemma StepSettles(s: Store, op: FileOp)
    requires op.path != [] && op.path in s.fs && (s.fs[op.path].Regular? || Settled(s, op))
    ensures Settled(Step(s, op, AllOk).store, op)
  {
    if Settled(s, op) {
      StepKeepsSettled(s, op, op);
    }
  }

  lemma {:induction false} RunKeepsSettled(s: Store, ops: seq<FileOp>, r: FileOp)
    requires Settled(s, r)
    requires forall j :: 0 <= j < |ops| && ops[j].path == r.path ==> ops[j].hash == r.hash
    ensures Settled(Run(s, ops, []), r)
    decreases |ops|
  {
    if ops != [] {
      StepKeepsSettled(s, ops[0], r);
      RunKeepsSettled(Step(s, ops[0], AllOk).store, ops[1..], r);
    }
  }

  /** A failure-free run over records for regular files, where a path always
      comes with the same fingerprint, settles every record: each path ends
      as the canonical copy of its content or as a link to that copy. */
  lemma {:induction false} RunSettles(s: Store, ops: seq<FileOp>)
    requires forall j :: 0 <= j < |ops| ==>
               && ops[j].path != [] && ops[j].path in s.fs
               && (s.fs[ops[j].path].Regular? || Settled(s, ops[j]))
    requires forall j, k :: 0 <= j < |ops| && 0 <= k < |ops| && ops[j].path == ops[k].path ==>
               ops[j].hash == ops[k].hash
    ensures forall j :: 0 <= j < |ops| ==> Settled(Run(s, ops, []), ops[j])
    decreases |ops|
  {
    if ops != [] {
      var s1 := Step(s, ops[0], AllOk).store;
      StepSettles(s, ops[0]);
      forall j | 1 <= j < |ops|
        ensures ops[j].path in s1.fs && (s1.fs[ops[j].path].Regular? || Settled(s1, ops[j]))
      {
        if ops[j].path == ops[0].path {
          assert ops[j] == ops[0];
        } else {
          assert ops[j].path in s.fs - {ops[0].path};
          if Settled(s, ops[j]) {
            StepKeepsSettled(s, ops[0], ops[j]);
          }
        }
      }
      RunSettles(s1, ops[1..]);
      RunKeepsSettled(s1, ops[1..], ops[0]);
      forall j | 0 <= j < |ops| ensures Settled(Run(s, ops, []), ops[j]) {
        if j > 0 {
          assert ops[j] == ops[1..][j - 1];
        }
      }
    }
  }

  lemma {:induction false} FirstPathWithIsARecord(ops: seq<FileOp>, h: string, k: nat)
    requires k < |ops| && ops[k].hash == h
    ensures exists m :: 0 <= m < |ops| && ops[m].hash == h && ops[m].path == FirstPathWith(ops, h)
    decreases k
  {
    if ops[0].hash != h {
      FirstPathWithIsARecord(ops[1..], h, k - 1);
      var m :| 0 <= m < |ops[1..]| && ops[1..][m].hash == h && ops[1..][m].path == FirstPathWith(ops[1..], h);
      assert ops[m + 1] == ops[1..][m];
    }
  }

  /** After a failure-free run, records with the same fingerprint leave at
      most one regular file between them, every other one being a link to
      the canonical path; and for fingerprints the table did not know
      before, that canonical path is a regular file, so no link points at
      another link. */
  lemma Deduplicated(s: Store, ops: seq<FileOp>)
    requires forall j :: 0 <= j < |ops| ==>
               && ops[j].path != [] && ops[j].path in s.fs && s.fs[ops[j].path].Regular?
    requires forall j, k :: 0 <= j < |ops| && 0 <= k < |ops| && ops[j].path == ops[k].path ==>
               ops[j].hash == ops[k].hash
    ensures forall j :: 0 <= j < |ops| ==> ops[j].path in Run(s, ops, []).fs
    ensures forall j, k :: 0 <= j < |ops| && 0 <= k < |ops| && ops[j].hash == ops[k].hash
              && Run(s, ops, []).fs[ops[j].path].Regular? && Run(s, ops, []).fs[ops[k].path].Regular?
              ==> ops[j].path == ops[k].path
    ensures forall j :: 0 <= j < |ops| && Run(s, ops, []).fs[ops[j].path].Symlink? ==>
              Run(s, ops, []).fs[ops[j].path].target == Stored(Run(s, ops, []).index, ops[j].hash)
    ensures forall j :: 0 <= j < |ops| && Stored(s.index, ops[j].hash) == [] ==>
              var c := Stored(Run(s, ops, []).index, ops[j].hash);
              c in Run(s, ops, []).fs && Run(s, ops, []).fs[c].Regular?
  {
    var t := Run(s, ops, []);
    RunSettles(s, ops);
    forall j | 0 <= j < |ops| && Stored(s.index, ops[j].hash) == []
      ensures Stored(t.index, ops[j].hash) in t.fs && t.fs[Stored(t.index, ops[j].hash)].Regular?
    {
      var h := ops[j].hash;
      FirstPathWins(s, ops, h);
      FirstPathWithIsARecord(ops, h, j);
      var m :| 0 <= m < |ops| && ops[m].hash == h && ops[m].path == FirstPathWith(ops, h);
      assert Settled(t, ops[m]);
    }
  }

  /** Records whose paths are already their fingerprint's canonical regular
      file change nothing, whatever the database and filesystem calls do. */
  lemma {:induction false} SettledRunIsNoOp(s: Store, ops: seq<FileOp>, outcomes: seq<Outcome>)
    requires forall j :: 0 <= j < |ops| ==> ops[j].path != [] && Stored(s.index, ops[j].hash) == ops[j].path
    ensures Run(s, ops, outcomes) == s
    decreases |ops|
  {
    if ops != [] {
      assert Step(s, ops[0], FirstOr(outcomes, AllOk)).store == s;
      SettledRunIsNoOp(s, ops[1..], Rest(outcomes));
    }
  }
}
