/**
 * The pip backend: its name, the parser of `pip index versions` output and
 * a search that never fails.
 */
module PipBackend {
  import opened Wrappers
  import opened Text
  import opened Aggregator
  import Backends

  /** One line: the first word names the package and the second, when present, is the version; '(' and ')' are stripped from both ends of each. */
  function PipLine(line: string): (r: Option<PackageResult>)
    ensures r.Some? <==> !IsBlank(line)
    ensures r.Some? ==> r.value.source == "pip" && r.value.description == None && r.value.score == 0
  {
    TrimEmptyIffBlank(line);
    if Trim(line) == [] then None
    else
      var parts := SplitWhitespace(line);
      if parts == [] then None
      else
        var named := New(TrimMatches(parts[0], IsParen), "pip");
        Some(if |parts| > 1 then WithVersion(named, TrimMatches(parts[1], IsParen)) else named)
  }

  /** `parse_search_output`: one record per non-blank line, in order. */
  function ParseSearchOutput(output: string): (r: seq<PackageResult>)
    ensures |r| == CountWhere(Lines(output), line => !IsBlank(line))
  {
    CollectCount(Lines(output), PipLine, line => !IsBlank(line));
    Collect(Lines(output), PipLine)
  }

  /** `search`: the parsed output, or, when the command fails, a single record named after the query. */
  function Search(query: string, o: Backends.CommandOutput): (r: Result<seq<PackageResult>>)
    ensures r.Ok?
    ensures o.Exited? && o.success ==> r.value == ParseSearchOutput(o.stdout)
    ensures !(o.Exited? && o.success) ==> r.value == [New(query, "pip")]
  {
    match Backends.RunCommandOutput(o)
    case Ok(out) => Ok(ParseSearchOutput(out))
    case Err(_) => Ok([New(query, "pip")])
  }


  /** A line of words: the first (parentheses stripped) is the name, the second (likewise) the version. */
  lemma PipWords(words: seq<string>)
    requires |words| >= 1
    requires forall w :: w in words ==> w != [] && NoSpace(w)
    ensures var named := New(TrimMatches(words[0], IsParen), "pip");
      PipLine(Join(words, " ")) == Some(if |words| > 1 then WithVersion(named, TrimMatches(words[1], IsParen)) else named)
  {
    SplitWhitespaceJoin(words);
  }

  /**
   * Every record `search` returns has source "pip", even when the backend
   * is called "pipx", so such records never carry the backend's name.
   */
  lemma PipRecordsSayPip(usePipx: bool, query: string, o: Backends.CommandOutput, x: PackageResult)
    requires x in Search(query, o).value
    ensures x.source == "pip"
    ensures usePipx ==> x.source != Backends.Name(Backends.Pip(usePipx))
  {
    if o.Exited? && o.success {
      CollectFrom(Lines(o.stdout), PipLine, x);
    }
    Backends.PipName(usePipx);
  }
}
