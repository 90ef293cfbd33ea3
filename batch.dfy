/**
  The run of `main`: the early exit when the source is missing, the
  dry-run report loop, and the batched submission of move jobs.

  Worker execution is sequential here: a submitted job waits in the
  pending list (the source's `futures`) and runs when the batch is
  drained, in submission order. `Moves` is the specification of a whole
  sequence of moves one file at a time; `BatchRun.Run` is proved to end
  in exactly that state, so batching changes nothing about where files
  land.
 */
module Batch {
  import opened Names
  import opened Resolver

  lemma PrefixSnoc<T>(s: seq<T>, n: nat)
    requires n < |s|
    ensures s[..n + 1] == s[..n] + [s[n]]
  {
  }

  /** One completed move: which file, and the name it got. */
  datatype Move = Move(src: SourceFile, dest: string)

  /** One dry-run line: the file and the directory it would go to. */
  datatype Report = Report(src: SourceFile, destDir: string)

  /** The names the moves in `moves` created. */
  ghost function Landed(moves: seq<Move>): set<string>
  {
    set m | m in moves :: m.dest
  }

  /** Moving `files` one after another into a directory that held
      `initial`, each file getting the name `resolve` picks against
      everything present at that moment. */
  ghost function MovesBy(resolve: (set<string>, string) -> string,
                         initial: set<string>, files: seq<SourceFile>): seq<Move>
    decreases |files|
  {
    if files == [] then []
    else
      var prior := MovesBy(resolve, initial, files[..|files| - 1]);
      var f := files[|files| - 1];
      prior + [Move(f, resolve(initial + Landed(prior), f.name))]
  }

  /** The moves `move_file` performs for `files`, one at a time. */
  ghost function Moves(initial: set<string>, files: seq<SourceFile>): seq<Move>
  {
    MovesBy(Resolved, initial, files)
  }

  /** The directory after moving `files`. */
  ghost function NamesAfter(initial: set<string>, files: seq<SourceFile>): set<string>
  {
    initial + Landed(Moves(initial, files))
  }

  /** Unfolding `Moves` by one file at the end. */
  lemma MovesSnoc(initial: set<string>, files: seq<SourceFile>, f: SourceFile)
    ensures Moves(initial, files + [f]) ==
      Moves(initial, files) + [Move(f, Resolved(NamesAfter(initial, files), f.name))]
    ensures NamesAfter(initial, files + [f]) ==
      NamesAfter(initial, files) + {Resolved(NamesAfter(initial, files), f.name)}
  {
    assert (files + [f])[..|files + [f]| - 1] == files;
    assert MovesBy(Resolved, initial, files + [f]) ==
      MovesBy(Resolved, initial, files) + [Move(f, Resolved(NamesAfter(initial, files), f.name))];
    var prior := Moves(initial, files);
    var m := Move(f, Resolved(NamesAfter(initial, files), f.name));
    assert Landed(prior + [m]) == Landed(prior) + {m.dest};
  }

  /** Every file is moved exactly once, in list order. */
  lemma {:induction false} MovesShape(initial: set<string>, files: seq<SourceFile>)
    ensures |Moves(initial, files)| == |files|
    ensures forall k :: 0 <= k < |files| ==> Moves(initial, files)[k].src == files[k]
    decreases |files|
  {
    if files != [] {
      var front := files[..|files| - 1];
      MovesShape(initial, front);
      assert forall k :: 0 <= k < |front| ==> files[k] == front[k];
    }
  }

  /** No two moves of a run land on the same name, and none lands on a
      name that was present before the run. */
  ghost predicate DistinctFresh(initial: set<string>, moves: seq<Move>)
  {
    (forall k :: 0 <= k < |moves| ==> moves[k].dest !in initial) &&
    (forall a, b :: 0 <= a < b < |moves| ==> moves[a].dest != moves[b].dest)
  }

  lemma {:induction false} MovesDistinct(initial: set<string>, files: seq<SourceFile>)
    ensures DistinctFresh(initial, Moves(initial, files))
    decreases |files|
  {
    if files != [] {
      var front := files[..|files| - 1];
      var f := files[|files| - 1];
      assert files == front + [f];
      MovesDistinct(initial, front);
      MovesSnoc(initial, front, f);
      var prior := Moves(initial, front);
      var m := Move(f, Resolved(NamesAfter(initial, front), f.name));
      var ms := prior + [m];
      assert Moves(initial, files) == ms;
      assert m.dest !in initial + Landed(prior);
      forall a | 0 <= a < |prior|
        ensures ms[a] == prior[a] && prior[a].dest != m.dest
      {
        assert prior[a] in prior;
      }
    }
  }

  /** The directory grows by exactly one name per file moved. */
  lemma {:induction false} NamesAfterSize(initial: set<string>, files: seq<SourceFile>)
    ensures |NamesAfter(initial, files)| == |initial| + |files|
    decreases |files|
  {
    if files != [] {
      var front := files[..|files| - 1];
      var f := files[|files| - 1];
      assert files == front + [f];
      NamesAfterSize(initial, front);
      MovesSnoc(initial, front, f);
    }
  }

  /** Files whose names are pairwise different and all free keep their
      own names. */
  lemma {:induction false} MovesKeepFreeNames(initial: set<string>, files: seq<SourceFile>)
    requires forall k :: 0 <= k < |files| ==> files[k].name !in initial
    requires forall a, b :: 0 <= a < b < |files| ==> files[a].name != files[b].name
    ensures |Moves(initial, files)| == |files|
    ensures forall k :: 0 <= k < |files| ==> Moves(initial, files)[k].dest == files[k].name
    decreases |files|
  {
    if files != [] {
      var front := files[..|files| - 1];
      var f := files[|files| - 1];
      assert files == front + [f];
      MovesKeepFreeNames(initial, front);
      MovesSnoc(initial, front, f);
      var prior := Moves(initial, front);
      assert f.name !in Landed(prior) by {
        forall m | m in prior
          ensures m.dest != f.name
        {
          var a :| 0 <= a < |prior| && prior[a] == m;
          assert files[a] == front[a];
        }
      }
    }
  }

  /** The name the k-th of several same-named files gets: the base name
      itself, then "stem (k)suffix". */
  function SeriesName(base: string, k: nat): string
  {
    if k == 0 then base else Probe(base, k)
  }

  /** The k-th move landed on `names(k)`, for every move. */
  ghost predicate LandsOn(moves: seq<Move>, names: nat -> string)
  {
    forall k :: 0 <= k < |moves| ==> moves[k].dest == names(k)
  }

  function SeriesNames(base: string): nat -> string
  {
    (k: nat) => SeriesName(base, k)
  }

  ghost predicate IsSeries(moves: seq<Move>, base: string)
  {
    LandsOn(moves, SeriesNames(base))
  }

  /** N files with the same base name, moved into an empty directory,
      land as base, "stem (1)suffix", ..., "stem (N-1)suffix". */
  lemma {:induction false} SameNameSeries(files: seq<SourceFile>, base: string)
    requires forall k :: 0 <= k < |files| ==> files[k].name == base
    ensures |Moves({}, files)| == |files|
    ensures IsSeries(Moves({}, files), base)
    decreases |files|
  {
    MovesShape({}, files);
    if files != [] {
      var n := |files| - 1;
      var front := files[..n];
      assert files == front + [files[n]];
      SameNameSeries(front, base);
      SeriesStep(front, files[n], base);
    }
  }

  /** One more file of the same name continues the series. */
  lemma SeriesStep(front: seq<SourceFile>, f: SourceFile, base: string)
    requires f.name == base && |Moves({}, front)| == |front|
    requires IsSeries(Moves({}, front), base)
    ensures IsSeries(Moves({}, front + [f]), base)
  {
    var prior := Moves({}, front);
    var n := |prior|;
    MovesSnoc({}, front, f);
    assert NamesAfter({}, front) == Landed(prior);
    assert Resolved(Landed(prior), base) == SeriesName(base, n) by {
      if n > 0 {
        SeriesIsFirstFree(prior, base);
        ResolvedIsProbe(Landed(prior), base, n);
      }
    }
    var m := Move(f, SeriesName(base, n));
    assert Moves({}, front + [f]) == prior + [m];
    LandsOnAppend(prior, m, SeriesNames(base));
  }

  lemma LandsOnAppend(prior: seq<Move>, m: Move, names: nat -> string)
    requires LandsOn(prior, names) && m.dest == names(|prior|)
    ensures LandsOn(prior + [m], names)
  {
    var ms := prior + [m];
    forall k | 0 <= k < |ms|
      ensures ms[k].dest == names(k)
    {
      if k < |prior| {
        assert ms[k] == prior[k];
      }
    }
  }

  /** After base, "stem (1)suffix", ..., "stem (n-1)suffix" have landed,
      counter n is the first free one. */
  lemma SeriesIsFirstFree(prior: seq<Move>, base: string)
    requires |prior| > 0 && IsSeries(prior, base)
    ensures base in Landed(prior)
    ensures FirstFree(Landed(prior), base, |prior|)
  {
    var n := |prior|;
    assert prior[0] in prior;
    forall j | 1 <= j < n
      ensures Taken(Landed(prior), base, j)
    {
      assert prior[j] in prior;
    }
    forall m | m in prior
      ensures m.dest != Probe(base, n)
    {
      var a :| 0 <= a < |prior| && prior[a] == m;
      CandidateInjective(Stem(base), Suffix(base), a, n);
      CandidateIsNotName(base, n);
    }
  }

  /** `a.txt` and `b.txt` at the top of the tree and `sub/a.txt` below
      it, moved into an empty directory, become `a.txt`, `b.txt` and
      `a (1).txt`. */
  lemma ExampleRun(a: SourceFile, b: SourceFile, c: SourceFile)
    requires a.name == "a.txt" && b.name == "b.txt" && c.name == "a.txt"
    ensures Moves({}, [a, b, c]) ==
      [Move(a, "a.txt"), Move(b, "b.txt"), Move(c, "a (1).txt")]
  {
    ResolveExample();
    ClashAfterTwo([a, b, c]);
  }

  /** Two differently named files keep their names; a third named like
      the first gets whatever the resolver picks against those two. */
  lemma ClashAfterTwo(files: seq<SourceFile>)
    requires |files| == 3
    requires files[0].name != files[1].name && files[2].name == files[0].name
    ensures Moves({}, files) ==
      [Move(files[0], files[0].name), Move(files[1], files[1].name),
       Move(files[2], Resolved({files[0].name, files[1].name}, files[0].name))]
  {
    var front := files[..2];
    assert files == front + [files[2]];
    FirstTwo(front);
    MovesSnoc({}, front, files[2]);
  }

  lemma FirstTwo(files: seq<SourceFile>)
    requires |files| == 2 && files[0].name != files[1].name
    ensures Moves({}, files) == [Move(files[0], files[0].name), Move(files[1], files[1].name)]
    ensures NamesAfter({}, files) == {files[0].name, files[1].name}
  {
    MovesKeepFreeNames({}, files);
    MovesShape({}, files);
    var ms := Moves({}, files);
    assert ms == [Move(files[0], files[0].name), Move(files[1], files[1].name)];
    assert Landed(ms) == {files[0].name, files[1].name} by {
      assert ms[0] in ms && ms[1] in ms;
    }
  }

  /** The scheduler of `main`: the destination, the batch size and the
      dry-run flag it was started with, the jobs submitted but not yet
      drained, and the dry-run report log. */
  class BatchRun {
    const dir: Destination
    const batchSize: int
    const dryRun: bool
    var pending: seq<SourceFile>
    var reports: seq<Report>
    /** The names present at the destination when the run began. */
    ghost var initial: set<string>
    /** Every job submitted so far, in order. */
    ghost var submitted: seq<SourceFile>
    /** The jobs that have run, in order. */
    ghost var done: seq<SourceFile>
    /** The largest number of jobs ever pending at once. */
    ghost var peak: nat

    /** The most jobs that can be pending: a batch size below 1 drains
        after every submission, like a batch of 1. */
    function Capacity(): (c: nat)
      ensures c >= 1 && c >= batchSize
      ensures batchSize >= 1 ==> c == batchSize
      ensures batchSize < 1 ==> c == 1
    {
      if batchSize < 1 then 1 else batchSize
    }

    ghost predicate Valid()
      reads this, dir
    {
      submitted == done + pending &&
      dir.names == NamesAfter(initial, done) &&
      |pending| <= peak <= Capacity()
    }

    constructor (dir: Destination, batchSize: int, dryRun: bool)
      ensures this.dir == dir && this.batchSize == batchSize && this.dryRun == dryRun
      ensures pending == [] && reports == [] && submitted == [] && done == []
      ensures initial == dir.names && peak == 0
      ensures Valid()
    {
      this.dir := dir;
      this.batchSize := batchSize;
      this.dryRun := dryRun;
      pending := [];
      reports := [];
      initial := dir.names;
      submitted := [];
      done := [];
      peak := 0;
    }

    /** One job of the pool (main.py:64, run at drain time): move `f`
        into the destination and record it as done. */
    method RunJob(f: SourceFile)
      requires dir.present && dir.names == NamesAfter(initial, done)
      modifies this`done, dir`names
      ensures done == old(done) + [f]
      ensures dir.names == NamesAfter(initial, done)
    {
      MovesSnoc(initial, done, f);
      var _ := dir.MoveFile(f);
      done := done + [f];
    }

    /** Run `jobs` one after another, in order. */
    method RunAll(jobs: seq<SourceFile>)
      requires dir.present && dir.names == NamesAfter(initial, done)
      modifies this`done, dir`names
      ensures done == old(done) + jobs
      ensures dir.names == NamesAfter(initial, done)
    {
      var k := 0;
      while k < |jobs|
        invariant 0 <= k <= |jobs|
        invariant done == old(done) + jobs[..k]
        invariant dir.names == NamesAfter(initial, done)
      {
        RunJob(jobs[k]);
        PrefixSnoc(jobs, k);
        k := k + 1;
      }
      assert jobs[..k] == jobs;
    }

    /** main.py:67-70 and main.py:73-74: wait for every pending job, which
        here means running each one in submission order, then start an
        empty batch. */
    method Drain()
      requires Valid() && dir.present
      modifies this, dir`names
      ensures Valid()
      ensures pending == [] && done == old(done) + old(pending)
      ensures submitted == old(submitted) && initial == old(initial)
      ensures reports == old(reports) && peak == old(peak)
    {
      RunAll(pending);
      pending := [];
    }

    /** main.py:64-70: submit the job for `f`; when the batch has
        reached the batch size, drain it. */
    method Submit(f: SourceFile)
      requires Valid() && dir.present && |pending| < Capacity()
      modifies this, dir`names
      ensures Valid() && |pending| < Capacity()
      ensures submitted == old(submitted) + [f]
      ensures initial == old(initial) && reports == old(reports)
      ensures |old(pending)| + 1 < batchSize ==>
        pending == old(pending) + [f] && done == old(done)
      ensures |old(pending)| + 1 >= batchSize ==>
        pending == [] && done == old(done) + old(pending) + [f]
      ensures peak >= old(peak) && peak >= |old(pending)| + 1
    {
      pending := pending + [f];
      submitted := submitted + [f];
      if |pending| > peak {
        peak := |pending|;
      }
      if |pending| >= batchSize {
        Drain();
      }
    }

    /** main.py:60-70, one file of the walk: a dry run only reports it;
        otherwise its job is submitted. */
    method Visit(f: SourceFile)
      requires Valid() && dir.present && |pending| < Capacity()
      modifies this, dir`names
      ensures Valid() && |pending| < Capacity() && initial == old(initial)
      ensures dryRun ==>
        reports == old(reports) + [Report(f, dir.path)] &&
        pending == old(pending) && submitted == old(submitted) &&
        done == old(done) && peak == old(peak) &&
        dir.names == old(dir.names)
      ensures !dryRun ==>
        reports == old(reports) && submitted == old(submitted) + [f]
      ensures !dryRun && |old(pending)| + 1 < batchSize ==>
        pending == old(pending) + [f] && done == old(done)
      ensures !dryRun && |old(pending)| + 1 >= batchSize ==>
        pending == [] && done == old(done) + old(pending) + [f]
    {
      if dryRun {
        reports := reports + [Report(f, dir.path)];
        return;
      }
      Submit(f);
    }

    /** main.py:48-76 with the file list of the tree walk as `files`
        and the pool size as `workers`: nothing happens when the source
        is missing; otherwise the destination is created, and a pool
        size below 1 stops the run there (`ThreadPoolExecutor` raises,
        reported as `raised`); else the files are processed. */
    method Run(sourceExists: bool, workers: int, files: seq<SourceFile>) returns (raised: bool)
      requires dir.Valid()
      modifies this, dir
      ensures dir.Valid()
      ensures raised <==> sourceExists && workers < 1
      ensures !sourceExists ==> unchanged(this) && unchanged(dir)
      ensures sourceExists && workers < 1 ==>
        dir.present && dir.names == old(dir.names) && unchanged(this)
      ensures sourceExists && workers >= 1 ==>
        dir.present && initial == old(dir.names) && Valid() &&
        peak <= Capacity() && pending == []
      ensures sourceExists && workers >= 1 && dryRun ==>
        dir.names == old(dir.names) && submitted == [] &&
        |reports| == |files| &&
        forall k :: 0 <= k < |files| ==> reports[k] == Report(files[k], dir.path)
      ensures sourceExists && workers >= 1 && !dryRun ==>
        reports == [] && submitted == files && done == files &&
        dir.names == NamesAfter(old(dir.names), files) &&
        |dir.names| == |old(dir.names)| + |files| &&
        DistinctFresh(old(dir.names), Moves(old(dir.names), files))
      ensures sourceExists && workers >= 1 && !dryRun && !old(dir.present) ==>
        dir.names == Landed(Moves({}, files))
    {
      raised := false;
      if !sourceExists {
        return;
      }
      dir.present := true;
      if workers < 1 {
        raised := true;
        return;
      }
      Process(files);
      NamesAfterSize(initial, files);
      MovesDistinct(initial, files);
    }

    /** main.py:58-74: starting from an empty batch, each file is either
        reported (dry run) or submitted, the batch being drained whenever
        it reaches the batch size, and once more at the end. */
    method Process(files: seq<SourceFile>)
      requires dir.present
      modifies this, dir`names
      ensures initial == old(dir.names) && Valid()
      ensures peak <= Capacity() && pending == []
      ensures dryRun ==>
        dir.names == initial && submitted == [] &&
        |reports| == |files| &&
        forall k :: 0 <= k < |files| ==> reports[k] == Report(files[k], dir.path)
      ensures !dryRun ==>
        reports == [] && submitted == files && done == files &&
        dir.names == NamesAfter(initial, files)
    {
      pending := [];
      reports := [];
      initial := dir.names;
      submitted := [];
      done := [];
      peak := 0;
      for n := 0 to |files|
        invariant Valid() && initial == old(dir.names)
        invariant dryRun ==>
          pending == [] && submitted == [] && dir.names == initial &&
          |reports| == n &&
          forall k :: 0 <= k < n ==> reports[k] == Report(files[k], dir.path)
        invariant !dryRun ==>
          reports == [] && submitted == files[..n] && |pending| < Capacity()
      {
        Visit(files[n]);
        PrefixSnoc(files, n);
      }
      Drain();
      assert !dryRun ==> files[..|files|] == files;
    }
  }
}
