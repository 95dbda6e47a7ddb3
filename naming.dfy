/** The marker prefix and the derivation of an output file name from a source file name
    (src/main.rs:24 and src/main.rs:89). All entries live in one directory, so a name here
    is a base file name and "the same parent directory" is implicit. */
module Naming {
  import opened Wrappers

  /** The marker every generated file name starts with. */
  const Prefix: string := "ze-stopka-"

  /** The separator placed between the marker and the source name. */
  const Separator: string := "__"

  /** `str::starts_with` on names. */
  predicate StartsWith(s: string, p: string) {
    |p| <= |s| && s[..|p|] == p
  }

  /** The name the annotated copy of `name` is written under. */
  function OutputName(name: string): (out: string)
    ensures StartsWith(out, Prefix)
    ensures |out| == |Prefix| + |Separator| + |name|
    ensures out[|Prefix| + |Separator|..] == name
  {
    Prefix + Separator + name
  }

  /** Recovers the source name from an output name; `None` for a name that is not one. */
  function SourceName(out: string): (r: Option<string>)
    ensures r.Some? ==> StartsWith(out, Prefix) && |r.value| < |out|
  {
    if StartsWith(out, Prefix + Separator) then Some(out[|Prefix + Separator|..]) else None
  }

  /** Decoding an output name gives back the source it was derived from. */
  lemma SourceOfOutput(name: string)
    ensures SourceName(OutputName(name)) == Some(name)
  {
    var out := OutputName(name);
    assert out[..|Prefix + Separator|] == Prefix + Separator;
  }

  /** Every name that decodes is the output name of what it decodes to. */
  lemma OutputOfSource(out: string)
    requires SourceName(out).Some?
    ensures OutputName(SourceName(out).value) == out
  {
    var n := SourceName(out).value;
    assert out == out[..|Prefix + Separator|] + n;
  }

  /** Distinct source names never share an output name. */
  lemma OutputNameInjective(a: string, b: string)
    ensures OutputName(a) == OutputName(b) ==> a == b
  {
    SourceOfOutput(a);
    SourceOfOutput(b);
  }

  /** An output name never equals a name that lacks the marker, so no source (which is
      scheduled only when unmarked) is ever the write target of any file. */
  lemma OutputIsNeverUnmarked(name: string, other: string)
    requires !StartsWith(other, Prefix)
    ensures OutputName(name) != other
  {
  }
}
