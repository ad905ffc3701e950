/**
 * The APT backend's search parser: each line of `apt-cache search` output
 * that reads "name - description" becomes a record.
 */
module AptBackend {
  import opened Wrappers
  import opened Text
  import opened Aggregator
  import Backends

  const Separator := " - "

  /** One line: split at the first " - ", both halves trimmed; any other line gives nothing. */
  function AptLine(line: string): (r: Option<PackageResult>)
    ensures r.Some? <==> Contains(line, Separator)
    ensures r.Some? ==>
      r.value.source == "apt" && r.value.version == None && r.value.description.Some? && r.value.score == 0
  {
    match SplitOnce(line, Separator)
    case None => None
    case Some((name, desc)) => Some(WithDescription(New(Trim(name), "apt"), Trim(desc)))
  }

  /** `parse_search_output`: the records of the lines, in line order. */
  function ParseSearchOutput(output: string): (r: seq<PackageResult>)
    ensures |r| == CountWhere(Lines(output), line => Contains(line, Separator))
  {
    CollectCount(Lines(output), AptLine, line => Contains(line, Separator));
    Collect(Lines(output), AptLine)
  }

  /** `search`: the parsed output of a successful `apt-cache search`, or the command's error. */
  function Search(o: Backends.CommandOutput): (r: Result<seq<PackageResult>>)
    ensures r.Ok? <==> o.Exited? && o.success
    ensures r.Ok? ==> r.value == ParseSearchOutput(o.stdout)
  {
    match Backends.RunCommandOutput(o)
    case Ok(out) => Ok(ParseSearchOutput(out))
    case Err(e) => Err(e)
  }

  /** `name`. */
  lemma AptName()
    ensures Backends.Name(Backends.Apt) == "apt"
  {
  }


  /** Every record comes from a line holding " - ", has source "apt", a description and no version. */
  lemma AptRecords(output: string, x: PackageResult)
    requires x in ParseSearchOutput(output)
    ensures exists line :: line in Lines(output) && Contains(line, Separator) && AptLine(line) == Some(x)
    ensures x.source == "apt" && x.version == None && x.description.Some? && x.score == 0
  {
    CollectFrom(Lines(output), AptLine, x);
  }

  /** A name without spaces ends at the first " - "; the description may hold further " - ". */
  lemma AptLineSplitsAtFirst(name: string, desc: string)
    requires ' ' !in name
    ensures AptLine(name + Separator + desc) == Some(WithDescription(New(Trim(name), "apt"), Trim(desc)))
  {
    var s := name + Separator + desc;
    forall j | 0 <= j < |name|
      ensures !OccursAt(s, Separator, j)
    {
      assert s[j] == name[j];
      if j + |Separator| <= |s| {
        assert s[j..j + |Separator|][0] == s[j];
      }
    }
    SplitOnceFirst(name, Separator, desc);
  }

  /** Two "name - description" lines with space-free names give their two records, in order. */
  lemma AptTwoLines(n1: string, d1: string, n2: string, d2: string)
    requires ' ' !in n1 && ' ' !in n2
    requires '\n' !in n1 && '\n' !in d1 && '\n' !in n2 && '\n' !in d2
    requires d1 == [] || d1[|d1| - 1] != '\r'
    ensures ParseSearchOutput(n1 + Separator + d1 + "\n" + n2 + Separator + d2) ==
      [WithDescription(New(Trim(n1), "apt"), Trim(d1)), WithDescription(New(Trim(n2), "apt"), Trim(d2))]
  {
    var l1, l2 := n1 + Separator + d1, n2 + Separator + d2;
    assert l1[|l1| - 1] != '\r' by {
      if d1 == [] { assert l1[|l1| - 1] == ' '; } else { assert l1[|l1| - 1] == d1[|d1| - 1]; }
    }
    LinesTwo(l1, l2);
    assert n1 + Separator + d1 + "\n" + n2 + Separator + d2 == l1 + "\n" + l2;
    AptLineSplitsAtFirst(n1, d1);
    AptLineSplitsAtFirst(n2, d2);
    CollectPair(l1, l2, AptLine);
  }
}
