/** The batch driver in `main` (src/main.rs:123-149): list the directory once, filter the
    listing into a schedule, then run the per-file pipeline for every scheduled entry.
    The parallel `for_each` is modelled as a loop over the schedule in order; the lemma
    `ResultsIndependentOfOrder` shows why that is faithful. */
module Batch {
  import opened Wrappers
  import opened Naming
  import opened Filtering
  import opened Pipeline

  /** One logged line: the entry and what processing it returned. */
  datatype Report = Report(entry: Entry, result: Result<string, FileError>)

  /** The fatal error of a run. */
  datatype RunError = DirectoryUnreadable(diagnostic: string)

  /** A pass over a schedule: one report per entry, every access, and the final directory. */
  datatype Pass = Pass(reports: seq<Report>, ios: seq<Io>, after: Directory)

  /** Processing `sched` in order, starting from `dir`. */
  function RunAll(dir: Directory, faults: Faults, compose: Compositor, sched: seq<Entry>): (p: Pass)
    // one report per scheduled entry, in schedule order
    ensures |p.reports| == |sched|
    ensures forall i :: 0 <= i < |sched| ==> p.reports[i].entry == sched[i]
    decreases |sched|
  {
    if sched == [] then Pass([], [], dir)
    else
      var init := sched[..|sched| - 1];
      var last := sched[|sched| - 1];
      var done := RunAll(dir, faults, compose, init);
      var s := Process(done.after, faults, compose, last);
      Pass(done.reports + [Report(last, s.result)], done.ios + s.ios, s.after)
  }

  /** Extending a schedule by one entry processes that entry on the directory the shorter
      schedule left. */
  lemma RunAllStep(dir: Directory, faults: Faults, compose: Compositor, sched: seq<Entry>, i: int)
    requires 0 <= i < |sched|
    ensures var done := RunAll(dir, faults, compose, sched[..i]);
      var s := Process(done.after, faults, compose, sched[i]);
      RunAll(dir, faults, compose, sched[..i + 1]) == Pass(done.reports + [Report(sched[i], s.result)], done.ios + s.ios, s.after)
  {
    assert sched[..i + 1][..i] == sched[..i];
  }

  /** Nothing that existed before a pass is changed or removed, so no source is ever
      written. */
  lemma {:induction false} RunKeepsExisting(dir: Directory, faults: Faults, compose: Compositor, sched: seq<Entry>)
    ensures Extends(dir, RunAll(dir, faults, compose, sched).after)
  {
    if sched != [] {
      RunKeepsExisting(dir, faults, compose, sched[..|sched| - 1]);
    }
  }

  /** Every name a pass adds is the output name of a scheduled entry. */
  lemma {:induction false} RunAddsOnlyOutputs(dir: Directory, faults: Faults, compose: Compositor, sched: seq<Entry>)
    ensures var p := RunAll(dir, faults, compose, sched);
      forall k :: k in p.after && k !in dir ==> exists e :: e in sched && e.name.Some? && k == OutputName(e.name.value)
  {
    if sched != [] {
      var init := sched[..|sched| - 1];
      RunAddsOnlyOutputs(dir, faults, compose, init);
      assert forall e :: e in init ==> e in sched;
      assert sched[|sched| - 1] in sched;
    }
  }

  /** Every success is reported with the scheduled entry's output name, which is present
      when the pass ends. */
  lemma {:induction false} RunSuccessesPresent(dir: Directory, faults: Faults, compose: Compositor, sched: seq<Entry>)
    ensures var p := RunAll(dir, faults, compose, sched);
      forall i :: 0 <= i < |sched| && p.reports[i].result.Success? ==>
        && sched[i].name.Some?
        && p.reports[i].result.value == OutputName(sched[i].name.value)
        && p.reports[i].result.value in p.after
  {
    if sched != [] {
      var init := sched[..|sched| - 1];
      RunSuccessesPresent(dir, faults, compose, init);
      var done := RunAll(dir, faults, compose, init);
      var s := Process(done.after, faults, compose, sched[|sched| - 1]);
      assert Extends(done.after, s.after);
    }
  }

  /** The `for_each` over the collected schedule, one entry after another; each entry's
      result is reported. */
  method ProcessEach(fs: FileSystem, entries: seq<Entry>, compose: Compositor) returns (reports: seq<Report>)
    modifies fs
    ensures var p := RunAll(old(fs.dir), fs.faults, compose, entries);
      reports == p.reports && fs.dir == p.after && fs.log == old(fs.log) + p.ios
  {
    ghost var start, log0 := fs.dir, fs.log;
    ghost var ios: seq<Io> := [];
    reports := [];
    var i := 0;
    while i < |entries|
      invariant 0 <= i <= |entries|
      invariant RunAll(start, fs.faults, compose, entries[..i]) == Pass(reports, ios, fs.dir)
      invariant fs.log == log0 + ios
    {
      RunAllStep(start, fs.faults, compose, entries, i);
      ghost var s := Process(fs.dir, fs.faults, compose, entries[i]);
      var r := AddFooterToFile(fs, entries[i], compose);
      reports := reports + [Report(entries[i], r)];
      ios := ios + s.ios;
      i := i + 1;
    }
    assert entries[..i] == entries;
  }

  /** `main` once the directory has been resolved: `listing` is what `read_dir` gave. The
      run fails only when the listing failed; per-file failures are only reported. */
  method Run(fs: FileSystem, listing: Result<seq<Listed>, string>, compose: Compositor)
    returns (outcome: Result<(), RunError>, reports: seq<Report>)
    modifies fs
    ensures outcome.Success? <==> listing.Success?
    ensures listing.Failure? ==>
      outcome == Failure(DirectoryUnreadable(listing.error)) && reports == [] && fs.dir == old(fs.dir) && fs.log == old(fs.log)
    ensures listing.Success? ==>
      var p := RunAll(old(fs.dir), fs.faults, compose, Schedule(listing.value));
      reports == p.reports && fs.dir == p.after && fs.log == old(fs.log) + p.ios
  {
    if listing.Failure? {
      return Failure(DirectoryUnreadable(listing.error)), [];
    }
    // the schedule is fixed before anything is written
    var entries := Schedule(listing.value);
    reports := ProcessEach(fs, entries, compose);
    outcome := Success(());
  }

  /** Every entry is named and its name lacks the marker (true of every schedule). */
  predicate Unmarked(sched: seq<Entry>) {
    forall i :: 0 <= i < |sched| ==> NameUnmarked(sched[i])
  }

  /** Distinct scheduled sources never share a write target, and no write target is a
      scheduled source: the per-file tasks touch disjoint paths. */
  lemma WriteTargetsDisjoint(sched: seq<Entry>, i: int, j: int)
    requires DistinctNames(sched) && Unmarked(sched)
    requires 0 <= i < |sched| && 0 <= j < |sched| && i != j
    ensures OutputName(sched[i].name.value) != OutputName(sched[j].name.value)
    ensures OutputName(sched[i].name.value) != sched[j].name.value
  {
    if i < j {
      assert sched[i].name != sched[j].name;
    } else {
      assert sched[j].name != sched[i].name;
    }
    OutputNameInjective(sched[i].name.value, sched[j].name.value);
    OutputIsNeverUnmarked(sched[i].name.value, sched[j].name.value);
  }

  /** With distinct, unmarked names, what each entry returns is what it would return if it
      ran alone on the initial directory: no task sees another's write, so the order of
      the sequential loop stands for any interleaving of the parallel one. */
  lemma {:induction false} ResultsIndependentOfOrder(dir: Directory, faults: Faults, compose: Compositor, sched: seq<Entry>)
    requires DistinctNames(sched) && Unmarked(sched)
    ensures var p := RunAll(dir, faults, compose, sched);
      forall i :: 0 <= i < |sched| ==> p.reports[i].result == Process(dir, faults, compose, sched[i]).result
  {
    if sched != [] {
      var init := sched[..|sched| - 1];
      var last := sched[|sched| - 1];
      DistinctPrefix(sched);
      ResultsIndependentOfOrder(dir, faults, compose, init);
      RunKeepsExisting(dir, faults, compose, init);
      LastSeesInitialDirectory(dir, faults, compose, sched);
      var done := RunAll(dir, faults, compose, init);
      ProcessIsLocal(done.after, faults, compose, dir, faults, compose, last);
    }
  }

  /** Dropping the last entry keeps a schedule free of repeated names. */
  lemma DistinctPrefix(sched: seq<Entry>)
    requires DistinctNames(sched) && Unmarked(sched) && sched != []
    ensures DistinctNames(sched[..|sched| - 1]) && Unmarked(sched[..|sched| - 1])
  {
    var init := sched[..|sched| - 1];
    forall i, j | 0 <= i < j < |init| && init[i].name.Some? ensures init[i].name != init[j].name {
      assert init[i] == sched[i] && init[j] == sched[j];
    }
  }

  /** With distinct, unmarked names, the writes of the entries before the last one leave
      the last entry's source and output name as they were in the initial directory. */
  lemma LastSeesInitialDirectory(dir: Directory, faults: Faults, compose: Compositor, sched: seq<Entry>)
    requires DistinctNames(sched) && Unmarked(sched) && sched != []
    ensures var done := RunAll(dir, faults, compose, sched[..|sched| - 1]);
      var name := sched[|sched| - 1].name.value;
      && (name in done.after ==> name in dir)
      && (OutputName(name) in done.after ==> OutputName(name) in dir)
  {
    RunAddsOnlyOutputs(dir, faults, compose, sched[..|sched| - 1]);
  }

  /** With distinct, unmarked names, the directory a run leaves contains what each entry
      would leave running alone on the initial directory. */
  lemma {:induction false} SoloRunsContained(dir: Directory, faults: Faults, compose: Compositor, sched: seq<Entry>)
    requires DistinctNames(sched) && Unmarked(sched)
    ensures forall i :: 0 <= i < |sched| ==>
      Extends(Process(dir, faults, compose, sched[i]).after, RunAll(dir, faults, compose, sched).after)
  {
    if sched != [] {
      var n := |sched| - 1;
      var init := sched[..n];
      DistinctPrefix(sched);
      SoloRunsContained(dir, faults, compose, init);
      LastSeesInitialDirectory(dir, faults, compose, sched);
      RunKeepsExisting(dir, faults, compose, init);
      var done := RunAll(dir, faults, compose, init);
      ProcessOnLargerDirectory(dir, done.after, faults, compose, sched[n]);
      var after := Process(done.after, faults, compose, sched[n]).after;
      assert RunAll(dir, faults, compose, sched).after == after;
      assert Extends(done.after, after);
      forall i | 0 <= i < n ensures Extends(Process(dir, faults, compose, sched[i]).after, after) {
        assert sched[i] == init[i];
      }
    }
  }

  /** With distinct, unmarked names, an entry's output is present when the run ends
      exactly when it is present after that entry runs alone on the initial directory. */
  lemma {:induction false} OutputsAsInSoloRuns(dir: Directory, faults: Faults, compose: Compositor, sched: seq<Entry>)
    requires DistinctNames(sched) && Unmarked(sched)
    ensures var after := RunAll(dir, faults, compose, sched).after;
      forall i :: 0 <= i < |sched| ==>
        (OutputName(sched[i].name.value) in after <==> OutputName(sched[i].name.value) in Process(dir, faults, compose, sched[i]).after)
  {
    if sched != [] {
      var n := |sched| - 1;
      var init := sched[..n];
      DistinctPrefix(sched);
      OutputsAsInSoloRuns(dir, faults, compose, init);
      LastSeesInitialDirectory(dir, faults, compose, sched);
      RunKeepsExisting(dir, faults, compose, init);
      var done := RunAll(dir, faults, compose, init);
      ProcessOnLargerDirectory(dir, done.after, faults, compose, sched[n]);
      var after := Process(done.after, faults, compose, sched[n]).after;
      assert RunAll(dir, faults, compose, sched).after == after;
      forall i | 0 <= i < n
        ensures OutputName(sched[i].name.value) in after <==> OutputName(sched[i].name.value) in Process(dir, faults, compose, sched[i]).after
      {
        assert sched[i] == init[i];
        WriteTargetsDisjoint(sched, i, n);
      }
    }
  }

  /** With distinct, unmarked names, the directory a run leaves is exactly the union of what
      each entry would leave running alone on the initial directory: it contains every solo
      result, it adds only output names of scheduled entries, and each of those is present
      exactly when the entry's solo run adds it. It therefore does not depend on the order
      in which the tasks ran. */
  lemma FinalDirectoryIsUnionOfSoloRuns(dir: Directory, faults: Faults, compose: Compositor, sched: seq<Entry>)
    requires DistinctNames(sched) && Unmarked(sched)
    ensures var p := RunAll(dir, faults, compose, sched);
      && Extends(dir, p.after)
      && (forall i :: 0 <= i < |sched| ==> Extends(Process(dir, faults, compose, sched[i]).after, p.after))
      && (forall k :: k in p.after && k !in dir ==> exists e :: e in sched && e.name.Some? && k == OutputName(e.name.value))
      && (forall i :: 0 <= i < |sched| ==>
            (OutputName(sched[i].name.value) in p.after <==> OutputName(sched[i].name.value) in Process(dir, faults, compose, sched[i]).after))
  {
    RunKeepsExisting(dir, faults, compose, sched);
    RunAddsOnlyOutputs(dir, faults, compose, sched);
    SoloRunsContained(dir, faults, compose, sched);
    OutputsAsInSoloRuns(dir, faults, compose, sched);
  }

  /** Isolation: one entry's reported result depends only on its own source and output
      name and on the faults and composition for them. Corrupting, adding or removing any
      other file, or making another file fail, leaves that result unchanged. */
  lemma Isolation(d1: Directory, f1: Faults, c1: Compositor, d2: Directory, f2: Faults, c2: Compositor, sched: seq<Entry>, i: int)
    requires DistinctNames(sched) && Unmarked(sched)
    requires 0 <= i < |sched|
    requires
      var name := sched[i].name.value;
      var out := OutputName(name);
      && (name in d1 <==> name in d2)
      && (name in d1 ==> d1[name] == d2[name] && c1(d1[name].bytes) == c2(d1[name].bytes))
      && (out in d1 <==> out in d2)
      && (name in f1.unreadable <==> name in f2.unreadable)
      && (out in f1.unwritable <==> out in f2.unwritable)
    ensures RunAll(d1, f1, c1, sched).reports[i] == RunAll(d2, f2, c2, sched).reports[i]
  {
    assert sched[i] in sched;
    ResultsIndependentOfOrder(d1, f1, c1, sched);
    ResultsIndependentOfOrder(d2, f2, c2, sched);
    ProcessIsLocal(d1, f1, c1, d2, f2, c2, sched[i]);
  }

  /** Each file the run adds is a regular file holding the composition of its own source's
      bytes as they were before the run. */
  lemma {:induction false} OutputsHoldComposedSources(dir: Directory, faults: Faults, compose: Compositor, sched: seq<Entry>)
    requires Unmarked(sched)
    ensures var p := RunAll(dir, faults, compose, sched);
      forall k :: k in p.after && k !in dir ==>
        && SourceName(k).Some?
        && SourceName(k).value in dir
        && p.after[k].regular
        && compose(dir[SourceName(k).value].bytes) == Success(p.after[k].bytes)
  {
    if sched != [] {
      var init := sched[..|sched| - 1];
      var last := sched[|sched| - 1];
      assert forall e :: e in init ==> e in sched;
      OutputsHoldComposedSources(dir, faults, compose, init);
      RunKeepsExisting(dir, faults, compose, init);
      RunAddsOnlyOutputs(dir, faults, compose, init);
      var done := RunAll(dir, faults, compose, init);
      var s := Process(done.after, faults, compose, last);
      if s.after != done.after {
        assert last in sched;
        var name := last.name.value;
        var out := OutputName(name);
        SourceOfOutput(name);
        assert s.after == done.after[out := s.after[out]];
      }
    }
  }

  /** A schedule whose every output is already present is a no-op: no access at all, the
      directory unchanged, and every entry reported with its existing output name. */
  lemma {:induction false} NothingLeftToDo(dir: Directory, faults: Faults, compose: Compositor, sched: seq<Entry>)
    requires forall e :: e in sched ==> e.name.Some? && OutputName(e.name.value) in dir
    ensures var p := RunAll(dir, faults, compose, sched);
      && p.ios == []
      && p.after == dir
      && forall i :: 0 <= i < |sched| ==> p.reports[i].result == Success(OutputName(sched[i].name.value))
  {
    if sched != [] {
      var init := sched[..|sched| - 1];
      assert forall e :: e in init ==> e in sched;
      NothingLeftToDo(dir, faults, compose, init);
      assert sched[|sched| - 1] in sched;
    }
  }

  /** The listing only names what the directory holds, and reports a regular file only
      for a regular file (it may omit items, or fail to probe them). */
  predicate Lists(listing: seq<Listed>, dir: Directory) {
    forall item :: item in listing && item.Readable? && item.entry.name.Some? ==>
      item.entry.name.value in dir && (item.entry.probe == RegularFile ==> dir[item.entry.name.value].regular)
  }

  /** Every regular file of the directory is listed, readable and successfully probed. */
  predicate Complete(listing: seq<Listed>, dir: Directory) {
    forall n :: n in dir && dir[n].regular ==> Readable(Entry(Some(n), RegularFile)) in listing
  }

  /** After a run over a complete listing in which every file succeeded, each unmarked
      regular file of the resulting directory has its output present. */
  lemma CompletedSourceHasOutput(dir: Directory, faults: Faults, compose: Compositor, first: seq<Listed>, n: string)
    requires Complete(first, dir)
    requires var p := RunAll(dir, faults, compose, Schedule(first));
      (forall r :: r in p.reports ==> r.result.Success?) && n in p.after && p.after[n].regular
    requires !StartsWith(n, Prefix)
    ensures OutputName(n) in RunAll(dir, faults, compose, Schedule(first)).after
  {
    var sched := Schedule(first);
    var p := RunAll(dir, faults, compose, sched);
    RunKeepsExisting(dir, faults, compose, sched);
    RunAddsOnlyOutputs(dir, faults, compose, sched);
    RunSuccessesPresent(dir, faults, compose, sched);
    var item := Readable(Entry(Some(n), RegularFile));
    assert item in first && Eligible(item);
    var i :| 0 <= i < |sched| && sched[i] == item.entry;
    assert p.reports[i] in p.reports;
  }

  /** Idempotence: when a complete listing was processed and every file succeeded, a
      second run over the resulting directory, from any faithful listing of it and under
      any faults, reads nothing, writes nothing, changes nothing and reports every file
      as already done. */
  lemma SecondRunIsNoOp(
    dir: Directory, faults: Faults, compose: Compositor, first: seq<Listed>,
    faults2: Faults, compose2: Compositor, second: seq<Listed>)
    requires Complete(first, dir)
    requires var p := RunAll(dir, faults, compose, Schedule(first));
      (forall r :: r in p.reports ==> r.result.Success?) && Lists(second, p.after)
    ensures var p := RunAll(dir, faults, compose, Schedule(first));
      var q := RunAll(p.after, faults2, compose2, Schedule(second));
      && q.ios == []
      && q.after == p.after
      && forall r :: r in q.reports ==> r.entry.name.Some? && r.result == Success(OutputName(r.entry.name.value))
  {
    var p := RunAll(dir, faults, compose, Schedule(first));
    var sched2 := Schedule(second);
    forall e | e in sched2 ensures e.name.Some? && OutputName(e.name.value) in p.after {
      assert Readable(e) in second;
      CompletedSourceHasOutput(dir, faults, compose, first, e.name.value);
    }
    NothingLeftToDo(p.after, faults2, compose2, sched2);
    var q := RunAll(p.after, faults2, compose2, sched2);
    forall r | r in q.reports ensures r.entry.name.Some? && r.result == Success(OutputName(r.entry.name.value)) {
      var i :| 0 <= i < |q.reports| && q.reports[i] == r;
      assert sched2[i] in sched2;
    }
  }
}
