/**
 * The Snap backend's search: `snap find` prints a header line and then
 * columns Name, Version, Publisher, Notes, Summary separated by runs of
 * spaces. The exit status is not checked.
 */
module SnapBackend {
  import opened Wrappers
  import opened Text
  import opened Aggregator
  import Backends

  /** Lines with at least this many whitespace-separated words are rows. */
  const MinWords := 5

  /**
   * One line after the header: with five or more words, the name is word 0,
   * the version word 1 and the description words 4 onwards joined by single
   * spaces; shorter lines give nothing.
   */
  function SnapLine(line: string): (r: Option<PackageResult>)
    ensures r.Some? <==> |SplitWhitespace(line)| >= MinWords
    ensures r.Some? ==>
      r.value.version.Some? && r.value.description.Some? && r.value.source == "snap" && r.value.score == 0
  {
    var words := SplitWhitespace(line);
    if |words| >= MinWords then
      Some(PackageResult(words[0], Some(words[1]), Some(Join(words[4..], " ")), "snap", 0))
    else None
  }

  /** The records of every line but the first. */
  function ParseSearchOutput(output: string): (r: seq<PackageResult>)
    ensures |r| == CountWhere(Skip1(Lines(output)), line => |SplitWhitespace(line)| >= MinWords)
  {
    CollectCount(Skip1(Lines(output)), SnapLine, line => |SplitWhitespace(line)| >= MinWords);
    Collect(Skip1(Lines(output)), SnapLine)
  }

  /** `search`: the parsed output of any run that started, whatever its exit status. */
  method Search(o: Backends.CommandOutput) returns (r: Result<seq<PackageResult>>)
    ensures r.Ok? <==> o.Exited?
    ensures r.Ok? ==> r.value == ParseSearchOutput(o.stdout)
  {
    var output := Backends.OutputIgnoringStatus(o);
    if output.Err? {
      return Err(output.error);
    }
    var lines := Lines(output.value);
    var body := if lines == [] then [] else lines[1..];
    var results := ParseLines(body);
    r := Ok(results);
  }

  /** The search loop over the lines after the header. */
  method ParseLines(lines: seq<string>) returns (results: seq<PackageResult>)
    ensures results == Collect(lines, SnapLine)
  {
    results := [];
    var i := 0;
    while i < |lines|
      invariant i <= |lines|
      invariant results == Collect(lines[..i], SnapLine)
    {
      CollectStep(lines, i, SnapLine);
      var parts := SplitWhitespace(lines[i]);
      if |parts| >= MinWords {
        var record := PackageResult(parts[0], Some(parts[1]), Some(Join(parts[4..], " ")), "snap", 0);
        results := results + [record];
      }
      i := i + 1;
    }
    assert lines[..i] == lines;
  }

  /** The first line is never read as a row, whatever it holds. */
  lemma SnapSkipsHeader(header: string, rest: string)
    requires '\n' !in header
    ensures ParseSearchOutput(header + "\n" + rest) == Collect(Lines(rest), SnapLine)
  {
    LinesCons(header, rest);
  }


  /** Every record comes from a line after the first with five or more words, and has source "snap". */
  lemma SnapRecords(output: string, x: PackageResult)
    requires x in ParseSearchOutput(output)
    ensures exists line :: line in Skip1(Lines(output)) && |SplitWhitespace(line)| >= MinWords && SnapLine(line) == Some(x)
    ensures x.version.Some? && x.description.Some? && x.source == "snap" && x.score == 0
  {
    CollectFrom(Skip1(Lines(output)), SnapLine, x);
  }

  /**
   * A row of words separated by single spaces: name and version are words
   * 0 and 1, the description the words from 4 on; the publisher and notes
   * columns are not kept.
   */
  lemma SnapRow(words: seq<string>)
    requires |words| >= MinWords
    requires forall w :: w in words ==> w != [] && NoSpace(w)
    ensures SnapLine(Join(words, " ")) == Some(PackageResult(words[0], Some(words[1]), Some(Join(words[4..], " ")), "snap", 0))
  {
    SplitWhitespaceJoin(words);
  }
}
