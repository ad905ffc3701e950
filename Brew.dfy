/**
 * The Homebrew backend's search parser: every line that is neither blank
 * nor a "==>" section heading names a package.
 */
module BrewBackend {
  import opened Wrappers
  import opened Text
  import opened Aggregator
  import Backends

  const Heading := "==>"

  /** The lines the parser keeps. */
  predicate Kept(line: string) {
    !IsBlank(line) && !StartsWith(line, Heading)
  }

  /** One line: a kept line names the package by its trimmed text. */
  function BrewLine(line: string): (r: Option<PackageResult>)
    ensures r.Some? <==> Kept(line)
    ensures r.Some? ==> r.value == New(Trim(line), "brew") && r.value.name != []
  {
    TrimEmptyIffBlank(line);
    if Trim(line) == [] || StartsWith(line, Heading) then None else Some(New(Trim(line), "brew"))
  }

  /** `parse_search_output`: one record per kept line, in order. */
  function ParseSearchOutput(output: string): (r: seq<PackageResult>)
    ensures |r| == CountWhere(Lines(output), Kept)
  {
    CollectCount(Lines(output), BrewLine, Kept);
    Collect(Lines(output), BrewLine)
  }

  /** `search`: the parsed output of a successful `brew search`, or the command's error. */
  function Search(o: Backends.CommandOutput): (r: Result<seq<PackageResult>>)
    ensures r.Ok? <==> o.Exited? && o.success
    ensures r.Ok? ==> r.value == ParseSearchOutput(o.stdout)
  {
    match Backends.RunCommandOutput(o)
    case Ok(out) => Ok(ParseSearchOutput(out))
    case Err(e) => Err(e)
  }

  /** `name`. */
  lemma BrewName()
    ensures Backends.Name(Backends.Brew) == "brew"
  {
  }


  /**
   * Every record is the trimmed text of a kept line, with a non-empty name,
   * source "brew", no version, no description and score 0.
   */
  lemma BrewRecords(output: string, x: PackageResult)
    requires x in ParseSearchOutput(output)
    ensures exists line :: line in Lines(output) && Kept(line) && x.name == Trim(line)
    ensures x.name != [] && x.source == "brew" && x.version == None && x.description == None && x.score == 0
  {
    CollectFrom(Lines(output), BrewLine, x);
  }

  /** When every line is kept, record `i` is the trimmed line `i`. */
  lemma BrewEveryLine(output: string)
    requires forall line :: line in Lines(output) ==> Kept(line)
    ensures |ParseSearchOutput(output)| == |Lines(output)|
    ensures forall i :: 0 <= i < |Lines(output)| ==> ParseSearchOutput(output)[i].name == Trim(Lines(output)[i])
  {
    CollectEvery(Lines(output), BrewLine);
  }
}
