/**
 * The DNF backend's search: `dnf search` prints "name.arch : summary"
 * lines among headings; each line holding " : " becomes a record. The exit
 * status is not checked.
 */
module DnfBackend {
  import opened Wrappers
  import opened Text
  import opened Aggregator
  import Backends

  const Separator := " : "

  /**
   * One line: split at the first " : "; the name is the trimmed left part
   * up to its first '.', the description the trimmed right part, the
   * version always "latest".
   */
  function DnfLine(line: string): (r: Option<PackageResult>)
    ensures r.Some? <==> Contains(line, Separator)
    ensures r.Some? ==> '.' !in r.value.name && r.value.description.Some? && r.value.source == "dnf" && r.value.score == 0
  {
    match SplitOnce(line, Separator)
    case None => None
    case Some((left, right)) =>
      var namePart := Trim(left);
      Some(PackageResult(Split(namePart, '.')[0], Some("latest"), Some(Trim(right)), "dnf", 0))
  }

  /** `search`: the records of the output lines of any run that started, whatever its exit status. */
  method Search(o: Backends.CommandOutput) returns (r: Result<seq<PackageResult>>)
    ensures r.Ok? <==> o.Exited?
    ensures r.Ok? ==> r.value == Collect(Lines(o.stdout), DnfLine)
  {
    var output := Backends.OutputIgnoringStatus(o);
    if output.Err? {
      return Err(output.error);
    }
    var results := ParseLines(Lines(output.value));
    r := Ok(results);
  }

  /** The search loop over the output lines. */
  method ParseLines(lines: seq<string>) returns (results: seq<PackageResult>)
    ensures results == Collect(lines, DnfLine)
  {
    results := [];
    var i := 0;
    while i < |lines|
      invariant i <= |lines|
      invariant results == Collect(lines[..i], DnfLine)
    {
      CollectStep(lines, i, DnfLine);
      var record := ParseLine(lines[i]);
      if record.Some? {
        results := results + [record.value];
      }
      i := i + 1;
    }
    assert lines[..i] == lines;
  }

  /** The body of the search loop for one line. */
  method ParseLine(line: string) returns (record: Option<PackageResult>)
    ensures record == DnfLine(line)
  {
    if !Contains(line, Separator) {
      return None;
    }
    var parts := SplitOnce(line, Separator).value;
    var namePart := Trim(parts.0);
    var name := Split(namePart, '.')[0];
    var description := Trim(parts.1);
    return Some(PackageResult(name, Some("latest"), Some(description), "dnf", 0));
  }

  /** Every record claims the version "latest". */
  lemma DnfVersion(line: string)
    requires DnfLine(line).Some?
    ensures DnfLine(line).value.version == Some("latest")
  {
  }

  /** One record per line that contains " : ", and no other. */
  lemma DnfCount(output: string)
    ensures |Collect(Lines(output), DnfLine)| == CountWhere(Lines(output), line => Contains(line, Separator))
  {
    CollectCount(Lines(output), DnfLine, line => Contains(line, Separator));
  }

  /** Every record comes from a line holding " : " and has version "latest" and source "dnf". */
  lemma DnfRecords(output: string, x: PackageResult)
    requires x in Collect(Lines(output), DnfLine)
    ensures exists line :: line in Lines(output) && Contains(line, Separator) && DnfLine(line) == Some(x)
    ensures x.version == Some("latest") && x.description.Some? && x.source == "dnf"
  {
    CollectFrom(Lines(output), DnfLine, x);
  }

  /**
   * A "name.arch : summary" line names the package without its
   * architecture; the summary may itself contain " : ".
   */
  lemma DnfRow(name: string, arch: string, summary: string)
    requires '.' !in name && ':' !in name && ':' !in arch
    requires NoSpace(name) && NoSpace(arch)
    ensures DnfLine(name + "." + arch + Separator + summary) ==
      Some(PackageResult(name, Some("latest"), Some(Trim(summary)), "dnf", 0))
  {
    var left := name + "." + arch;
    assert ':' !in left;
    assert Separator[1] == ':' && Separator[..1] == " ";
    PatternNotInside(left, Separator, summary, 1);
    SplitOnceFirst(left, Separator, summary);
    assert !IsSpace(left[0]) && !IsSpace(left[|left| - 1]) by {
      if name != [] { assert left[0] == name[0]; } else { assert left[0] == '.'; }
      if arch != [] { assert left[|left| - 1] == arch[|arch| - 1]; } else { assert left[|left| - 1] == '.'; }
    }
    TrimUnchanged(left);
    SplitCons(name, arch, '.');
    assert left == name + ['.'] + arch;
  }
}
