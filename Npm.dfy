/**
 * The npm backend's search parser. The first line of `npm search` output is
 * a header; blank lines are dropped; a line with at least three
 * '|'-separated fields is a table row, any other line names a package by
 * its first word.
 */
module NpmBackend {
  import opened Wrappers
  import opened Text
  import opened Aggregator
  import Backends

  /** One non-header line, blank or not. */
  function NpmLine(line: string): (r: Option<PackageResult>)
    ensures !IsBlank(line) ==> r.Some?
    ensures r.Some? ==> r.value.source == "npm" && r.value.score == 0
  {
    var parts := Split(line, '|');
    if |parts| >= 3 then
      var row := WithDescription(New(Trim(parts[0]), "npm"), Trim(parts[1]));
      Some(if |parts| > 4 then WithVersion(row, Trim(parts[4])) else row)
    else
      var words := SplitWhitespace(line);
      if words == [] then None else Some(New(words[0], "npm"))
  }

  /** The line after the blank-line filter: a record exactly when the line is not blank. */
  function NpmKept(line: string): (r: Option<PackageResult>)
    ensures r.Some? <==> !IsBlank(line)
    ensures r.Some? ==> r.value.source == "npm" && r.value.score == 0
  {
    TrimEmptyIffBlank(line);
    if Trim(line) == [] then None else NpmLine(line)
  }

  /** `parse_search_output`: skip the header, then one record per non-blank line, in order. */
  function ParseSearchOutput(output: string): (r: seq<PackageResult>)
    ensures |r| == CountWhere(Skip1(Lines(output)), line => !IsBlank(line))
  {
    CollectCount(Skip1(Lines(output)), NpmKept, line => !IsBlank(line));
    Collect(Skip1(Lines(output)), NpmKept)
  }

  /** `search`: the parsed output of a successful `npm search`, or the command's error. */
  function Search(o: Backends.CommandOutput): (r: Result<seq<PackageResult>>)
    ensures r.Ok? <==> o.Exited? && o.success
    ensures r.Ok? ==> r.value == ParseSearchOutput(o.stdout)
  {
    match Backends.RunCommandOutput(o)
    case Ok(out) => Ok(ParseSearchOutput(out))
    case Err(e) => Err(e)
  }

  /** `name`. */
  lemma NpmName()
    ensures Backends.Name(Backends.Npm) == "npm"
  {
  }

  /** The first line never yields a record, whatever it holds. */
  lemma NpmSkipsHeader(header: string, rest: string)
    requires '\n' !in header
    ensures ParseSearchOutput(header + "\n" + rest) == Collect(Lines(rest), NpmKept)
  {
    LinesCons(header, rest);
  }


  /** Every record comes from a non-blank line after the first, with source "npm" and score 0. */
  lemma NpmRecords(output: string, x: PackageResult)
    requires x in ParseSearchOutput(output)
    ensures exists line :: line in Skip1(Lines(output)) && !IsBlank(line) && NpmKept(line) == Some(x)
    ensures x.source == "npm" && x.score == 0
  {
    CollectFrom(Skip1(Lines(output)), NpmKept, x);
  }

  /**
   * A table row of three or more fields: the trimmed first field is the
   * name, the trimmed second the description, and the trimmed fifth, when
   * there is one, the version.
   */
  lemma NpmRow(fields: seq<string>)
    requires |fields| >= 3
    requires forall f :: f in fields ==> '|' !in f
    ensures var row := WithDescription(New(Trim(fields[0]), "npm"), Trim(fields[1]));
      NpmKept(Join(fields, "|")) == Some(if |fields| > 4 then WithVersion(row, Trim(fields[4])) else row)
  {
    JoinedNotBlank(fields);
    KeptIsLine(Join(fields, "|"));
    RowFields(fields);
  }

  /** The fields of a row are the pieces it was joined from. */
  lemma RowFields(fields: seq<string>)
    requires |fields| >= 3
    requires forall f :: f in fields ==> '|' !in f
    ensures var row := WithDescription(New(Trim(fields[0]), "npm"), Trim(fields[1]));
      NpmLine(Join(fields, "|")) == Some(if |fields| > 4 then WithVersion(row, Trim(fields[4])) else row)
  {
    JoinThenSplit(fields, '|');
  }

  /** A line that is not blank passes the filter unchanged. */
  lemma KeptIsLine(line: string)
    requires !IsBlank(line)
    ensures NpmKept(line) == NpmLine(line)
  {
    TrimEmptyIffBlank(line);
  }

  /** A row joined with '|' holds a '|', so it is not blank. */
  lemma JoinedNotBlank(fields: seq<string>)
    requires |fields| >= 2
    ensures !IsBlank(Join(fields, "|"))
  {
    var line := Join(fields, "|");
    JoinCons(fields[0], fields[1..], "|");
    assert [fields[0]] + fields[1..] == fields;
    assert line[|fields[0]|] == '|';
  }

  /** Any other line names the package by its first word, with no version or description. */
  lemma NpmWordLine(word: string, rest: string)
    requires word != [] && NoSpace(word)
    requires rest == [] || IsSpace(rest[0])
    requires |Split(word + rest, '|')| < 3
    ensures NpmKept(word + rest) == Some(New(word, "npm"))
  {
    var line := word + rest;
    WordsCons(word, rest);
    assert line[0] == word[0];
  }
}
