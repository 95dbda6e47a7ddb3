/** The chain of filters in `main` that turns a directory listing into the list of files
    to process (src/main.rs:125-140). */
module Filtering {
  import opened Wrappers
  import opened Naming

  /** Outcome of `DirEntry::file_type`: the probe failed, or it reports whether the
      entry is a regular file. */
  datatype Probe = ProbeFailed | RegularFile | NotRegularFile

  /** A directory entry: its base file name (a path may lack one) and its type probe. */
  datatype Entry = Entry(name: Option<string>, probe: Probe)

  /** One item of the `read_dir` iterator, which is itself fallible. */
  datatype Listed = Unreadable | Readable(entry: Entry)

  /** `file_type().map(is_file).unwrap_or_default()`: a failed probe counts as not a file. */
  predicate IsFile(e: Entry) {
    e.probe == RegularFile
  }

  /** `!file_name().map(starts_with(PREFIX)).unwrap_or(true)`: a nameless entry is dropped. */
  predicate NameUnmarked(e: Entry) {
    match e.name
    case None => false
    case Some(n) => !StartsWith(n, Prefix)
  }

  /** An item survives `filter_map(ok)` and both `filter`s. */
  predicate Eligible(item: Listed) {
    item.Readable? && IsFile(item.entry) && NameUnmarked(item.entry)
  }

  /** The collected schedule: the eligible entries, in listing order. */
  function Schedule(listing: seq<Listed>): (s: seq<Entry>)
    ensures |s| <= |listing|
    ensures forall e :: e in s ==> Readable(e) in listing && Eligible(Readable(e))
    ensures forall item :: item in listing && Eligible(item) ==> item.entry in s
  {
    if listing == [] then []
    else
      var rest := Schedule(listing[1..]);
      assert forall item :: item in listing[1..] ==> item in listing;
      if Eligible(listing[0]) then [listing[0].entry] + rest else rest
  }

  /** The schedule of a listing is the eligible entries of each part, in listing order:
      scheduling a concatenation concatenates the schedules, and a single item contributes
      its entry exactly when it is eligible. Together these fix `Schedule` as the
      order-preserving filter that `collect_vec` produces, repeats included. */
  lemma {:induction false} ScheduleAppend(a: seq<Listed>, b: seq<Listed>)
    ensures Schedule(a + b) == Schedule(a) + Schedule(b)
    ensures |a| == 1 ==> Schedule(a) == if Eligible(a[0]) then [a[0].entry] else []
  {
    if a == [] {
      assert a + b == b;
    } else {
      assert (a + b)[1..] == a[1..] + b;
      ScheduleAppend(a[1..], b);
      if |a| == 1 {
        assert a[1..] == [];
      }
    }
  }

  /** No two named entries of `entries` share a name. */
  predicate DistinctNames(entries: seq<Entry>) {
    forall i, j :: 0 <= i < j < |entries| && entries[i].name.Some? ==> entries[i].name != entries[j].name
  }

  /** No two readable, named items of a listing share a name (as `read_dir` guarantees). */
  predicate DistinctListing(listing: seq<Listed>) {
    forall i, j :: 0 <= i < j < |listing| && listing[i].Readable? && listing[j].Readable? && listing[i].entry.name.Some? ==>
      listing[i].entry.name != listing[j].entry.name
  }

  /** Dropping the first item keeps a listing free of repeated names. */
  lemma DistinctTail(listing: seq<Listed>)
    requires listing != [] && DistinctListing(listing)
    ensures DistinctListing(listing[1..])
  {
    var tail := listing[1..];
    forall i, j | 0 <= i < j < |tail| && tail[i].Readable? && tail[j].Readable? && tail[i].entry.name.Some?
      ensures tail[i].entry.name != tail[j].entry.name
    {
      assert tail[i] == listing[i + 1] && tail[j] == listing[j + 1];
    }
  }

  /** The name of the first item occurs nowhere in the schedule of the rest. */
  lemma HeadNameFresh(listing: seq<Listed>)
    requires listing != [] && DistinctListing(listing)
    requires listing[0].Readable? && listing[0].entry.name.Some?
    ensures forall e :: e in Schedule(listing[1..]) ==> e.name != listing[0].entry.name
  {
    var tail := listing[1..];
    forall e | e in Schedule(tail) ensures e.name != listing[0].entry.name {
      var k :| 0 <= k < |tail| && tail[k] == Readable(e);
      assert listing[k + 1] == Readable(e);
    }
  }

  /** Filtering a listing without repeated names gives a schedule without repeated names. */
  lemma {:induction false} ScheduleDistinct(listing: seq<Listed>)
    requires DistinctListing(listing)
    ensures DistinctNames(Schedule(listing))
  {
    if listing != [] {
      var tail := listing[1..];
      DistinctTail(listing);
      ScheduleDistinct(tail);
      if Eligible(listing[0]) {
        HeadNameFresh(listing);
        ConsDistinct(listing[0].entry, Schedule(tail));
      }
    }
  }

  /** Putting an entry whose name occurs nowhere in a list without repeated names in front
      of it keeps the list without repeated names. */
  lemma ConsDistinct(x: Entry, rest: seq<Entry>)
    requires DistinctNames(rest)
    requires forall e :: e in rest ==> e.name != x.name
    ensures DistinctNames([x] + rest)
  {
    var s := [x] + rest;
    forall i, j | 0 <= i < j < |s| && s[i].name.Some? ensures s[i].name != s[j].name {
      assert s[j] == rest[j - 1];
      if i == 0 {
        assert rest[j - 1] in rest;
      } else {
        assert s[i] == rest[i - 1];
      }
    }
  }

  /** Every scheduled entry is a named regular file whose name lacks the marker, so no
      output name, including those written during the same run, is ever scheduled. */
  lemma OutputsNeverScheduled(listing: seq<Listed>, source: string)
    ensures forall e :: e in Schedule(listing) ==> e.name.Some? && e.probe == RegularFile && e.name != Some(OutputName(source))
  {
    forall e | e in Schedule(listing) ensures e.name != Some(OutputName(source)) {
      OutputIsNeverUnmarked(source, e.name.value);
    }
  }
}
