/** The per-file pipeline `add_footer_to_file` (src/main.rs:81-98) over an abstract
    directory. The image transformation `add_footer` (src/main.rs:54-79) is a parameter:
    an uninterpreted fallible function from bytes to bytes. */
module Pipeline {
  import opened Wrappers
  import opened Naming
  import opened Filtering

  newtype Byte = b: int | 0 <= b < 256

  type Bytes = seq<Byte>

  /** What the directory holds under a name: whether it is a regular file, and its bytes. */
  datatype Node = Node(regular: bool, bytes: Bytes)

  /** The target directory, by base file name. */
  type Directory = map<string, Node>

  /** The failures `add_footer` reports: format detection, decoding, re-encoding. */
  datatype CodecError = UnrecognizedFormat | DecodeError(diagnostic: string) | EncodeError(diagnostic: string)

  /** The image transformation, left uninterpreted. */
  type Compositor = Bytes -> Result<Bytes, CodecError>

  /** Which reads and which writes the operating system refuses during a run. */
  datatype Faults = Faults(unreadable: set<string>, unwritable: set<string>)

  /** A file-system access: a read of a name, or an attempted write to a name. */
  datatype Io = ReadOf(name: string) | WriteOf(name: string)

  /** Why one file was not processed; each carries the name it concerns. */
  datatype FileError =
    | MissingFileName
    | ReadError(source: string)
    | ComposeError(source: string, cause: CodecError)
    | WriteError(target: string)

  /** The effect of processing one entry: the returned result, the accesses performed in
      order, and the directory afterwards. */
  datatype Step = Step(result: Result<string, FileError>, ios: seq<Io>, after: Directory)

  /** Every name of `before` is still present in `after`, with the same node. */
  predicate Extends(before: Directory, after: Directory) {
    forall k :: k in before ==> k in after && after[k] == before[k]
  }

  /** `std::fs::read`: succeeds on a present regular file the system lets us read. */
  function ReadOutcome(dir: Directory, faults: Faults, name: string): (r: Result<Bytes, FileError>)
    ensures r.Success? <==> name in dir && dir[name].regular && name !in faults.unreadable
    ensures r.Success? ==> r.value == dir[name].bytes
    ensures r.Failure? ==> r.error == ReadError(name)
  {
    if name in dir && dir[name].regular && name !in faults.unreadable then Success(dir[name].bytes)
    else Failure(ReadError(name))
  }

  /** `std::fs::write`: succeeds unless the system refuses to write the name. */
  function WriteOutcome(faults: Faults, name: string): (r: Result<(), FileError>)
    ensures r.Failure? <==> name in faults.unwritable
    ensures r.Failure? ==> r.error == WriteError(name)
  {
    if name in faults.unwritable then Failure(WriteError(name)) else Success(())
  }

  /** What `add_footer_to_file` does to the directory `dir` for `entry`. */
  function Process(dir: Directory, faults: Faults, compose: Compositor, entry: Entry): (s: Step)
    // a nameless entry is an error, and nothing is touched
    ensures entry.name.None? ==> s.result == Failure(MissingFileName) && s.ios == [] && s.after == dir
    // no name that existed is changed or removed, the source included
    ensures Extends(dir, s.after)
    // a failure leaves the directory exactly as it was
    ensures s.result.Failure? ==> s.after == dir
    ensures entry.name.Some? ==>
      var name := entry.name.value;
      var out := OutputName(name);
      // success returns the derived name and means that name is present afterwards
      && (s.result.Success? <==> out in s.after)
      && (s.result.Success? ==> s.result.value == out)
      // an already present output short-circuits: no read, no write
      && (out in dir ==> s.ios == [] && s.after == dir)
      // otherwise the source is read first, and the only access besides is a write to the output
      && (out !in dir ==> s.ios == [ReadOf(name)] || s.ios == [ReadOf(name), WriteOf(out)])
      // a write is attempted only after a successful read and a successful composition
      && (WriteOf(out) in s.ios ==>
            ReadOutcome(dir, faults, name).Success? && compose(ReadOutcome(dir, faults, name).value).Success?)
      // each stage that fails gives its own error
      && (out !in dir && ReadOutcome(dir, faults, name).Failure? ==> s.result == Failure(ReadError(name)))
      && (out !in dir && ReadOutcome(dir, faults, name).Success? && compose(ReadOutcome(dir, faults, name).value).Failure? ==>
            s.result == Failure(ComposeError(name, compose(ReadOutcome(dir, faults, name).value).error)))
      // when reading and composing succeed, the write is attempted, and it decides the result
      && (out !in dir && ReadOutcome(dir, faults, name).Success? && compose(ReadOutcome(dir, faults, name).value).Success? ==>
            && WriteOf(out) in s.ios
            && s.result == (if out in faults.unwritable then Failure(WriteError(out)) else Success(out)))
      // the only change ever made adds the output, holding the composed source bytes
      && (s.after != dir ==>
            && out !in dir
            && ReadOutcome(dir, faults, name).Success?
            && compose(ReadOutcome(dir, faults, name).value).Success?
            && s.after == dir[out := Node(true, compose(ReadOutcome(dir, faults, name).value).value)])
  {
    match entry.name
    case None => Step(Failure(MissingFileName), [], dir)
    case Some(name) =>
      var out := OutputName(name);
      if out in dir then Step(Success(out), [], dir)
      else
        match ReadOutcome(dir, faults, name)
        case Failure(e) => Step(Failure(e), [ReadOf(name)], dir)
        case Success(bytes) =>
          match compose(bytes)
          case Failure(cause) => Step(Failure(ComposeError(name, cause)), [ReadOf(name)], dir)
          case Success(annotated) =>
            match WriteOutcome(faults, out)
            case Failure(e) => Step(Failure(e), [ReadOf(name), WriteOf(out)], dir)
            case Success(_) => Step(Success(out), [ReadOf(name), WriteOf(out)], dir[out := Node(true, annotated)])
  }

  /** Processing an entry looks only at its own source, its own output name, and the
      faults and composition that concern them: two settings that agree there give the
      same result and the same accesses. */
  lemma ProcessIsLocal(d1: Directory, f1: Faults, c1: Compositor, d2: Directory, f2: Faults, c2: Compositor, entry: Entry)
    requires entry.name.Some? ==>
      var name := entry.name.value;
      var out := OutputName(name);
      && (name in d1 <==> name in d2)
      && (name in d1 ==> d1[name] == d2[name] && c1(d1[name].bytes) == c2(d1[name].bytes))
      && (out in d1 <==> out in d2)
      && (name in f1.unreadable <==> name in f2.unreadable)
      && (out in f1.unwritable <==> out in f2.unwritable)
    ensures Process(d1, f1, c1, entry).result == Process(d2, f2, c2, entry).result
    ensures Process(d1, f1, c1, entry).ios == Process(d2, f2, c2, entry).ios
  {
  }

  /** Processing an entry on a larger directory that agrees on its source and on whether
      its output exists adds the same file: what it leaves alone contains the effect it has
      alone on the smaller one, and it adds nothing that one would not. */
  lemma ProcessOnLargerDirectory(dir: Directory, larger: Directory, faults: Faults, compose: Compositor, entry: Entry)
    requires Extends(dir, larger)
    requires entry.name.Some? ==>
      var name := entry.name.value;
      && (name in larger ==> name in dir)
      && (OutputName(name) in larger ==> OutputName(name) in dir)
    ensures Extends(Process(dir, faults, compose, entry).after, Process(larger, faults, compose, entry).after)
    ensures forall k :: k in Process(larger, faults, compose, entry).after && k !in larger ==>
      k in Process(dir, faults, compose, entry).after
  {
  }

  /** The mutable file system the program runs against. `log` records every access, so
      that contracts can say what was read and written. */
  class FileSystem {
    var dir: Directory
    ghost var log: seq<Io>
    const faults: Faults

    constructor (dir: Directory, faults: Faults)
      ensures this.dir == dir && this.faults == faults && log == []
    {
      this.dir := dir;
      this.faults := faults;
      log := [];
    }

    /** `Path::exists`. */
    method Exists(name: string) returns (present: bool)
      ensures present <==> name in dir
    {
      present := name in dir;
    }

    /** `std::fs::read`. */
    method Read(name: string) returns (r: Result<Bytes, FileError>)
      modifies this`log
      ensures r == ReadOutcome(dir, faults, name)
      ensures log == old(log) + [ReadOf(name)]
    {
      r := ReadOutcome(dir, faults, name);
      log := log + [ReadOf(name)];
    }

    /** `std::fs::write`: creates or replaces `name` with a regular file holding `bytes`. */
    method Write(name: string, bytes: Bytes) returns (r: Result<(), FileError>)
      modifies this
      ensures r == WriteOutcome(faults, name)
      ensures dir == if r.Success? then old(dir)[name := Node(true, bytes)] else old(dir)
      ensures log == old(log) + [WriteOf(name)]
    {
      r := WriteOutcome(faults, name);
      if r.Success? {
        dir := dir[name := Node(true, bytes)];
      }
      log := log + [WriteOf(name)];
    }
  }

  /** `add_footer_to_file`: derive the output name, return it at once if it exists,
      otherwise read, compose and write, stopping at the first failure. */
  method AddFooterToFile(fs: FileSystem, entry: Entry, compose: Compositor) returns (r: Result<string, FileError>)
    modifies fs
    ensures var s := Process(old(fs.dir), fs.faults, compose, entry);
      r == s.result && fs.dir == s.after && fs.log == old(fs.log) + s.ios
  {
    if entry.name.None? {
      return Failure(MissingFileName);
    }
    var name := entry.name.value;
    var out := OutputName(name);
    var present := fs.Exists(out);
    if present {
      return Success(out);
    }
    var bytes := fs.Read(name);
    if bytes.Failure? {
      return Failure(bytes.error);
    }
    var annotated := compose(bytes.value);
    if annotated.Failure? {
      return Failure(ComposeError(name, annotated.error));
    }
    var written := fs.Write(out, annotated.value);
    if written.Failure? {
      return Failure(written.error);
    }
    return Success(out);
  }
}
