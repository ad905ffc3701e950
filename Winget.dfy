/**
 * The winget backend's search parser. The output is a column-aligned table:
 * the first line holding both "Name" and "Id" is its header, the line after
 * it a separator, and every later line with at least two words a package.
 */
module WingetBackend {
  import opened Wrappers
  import opened Text
  import opened Aggregator
  import Backends

  /** The header line names the "Name" and "Id" columns. */
  predicate IsHeader(line: string) {
    Contains(line, "Name") && Contains(line, "Id")
  }

  /** `position(...)`: the index of the first header line, if there is one. */
  function HeaderIndex(lines: seq<string>): (r: Option<nat>)
    ensures r.Some? ==> r.value < |lines| && IsHeader(lines[r.value])
    ensures r.Some? ==> forall j :: 0 <= j < r.value ==> !IsHeader(lines[j])
    ensures r.None? <==> forall line :: line in lines ==> !IsHeader(line)
  {
    var r := FirstWhere(lines, IsHeader);
    assert r.None? ==> forall line :: line in lines ==> !IsHeader(line) by {
      if r.None? {
        forall line | line in lines ensures !IsHeader(line) {
          var j :| 0 <= j < |lines| && lines[j] == line;
        }
      }
    }
    r
  }

  /** One table line: words 0 and 1 are the name and the id, word 2 (if any) the version. */
  function WingetLine(line: string): (r: Option<PackageResult>)
    ensures r.Some? ==> r.value.source == "winget" && r.value.description.Some? && r.value.score == 0
  {
    if Trim(line) == [] then None
    else
      var parts := SplitWhitespace(line);
      if |parts| >= 2 then
        var named := New(parts[0], "winget");
        var versioned := if |parts| > 2 then WithVersion(named, parts[2]) else named;
        Some(WithDescription(versioned, "ID: " + parts[1]))
      else None
  }

  predicate HasTwoWords(line: string) {
    |SplitWhitespace(line)| >= 2
  }

  /** A line yields a record exactly when it has at least two words. */
  lemma WingetLineKeeps(line: string)
    ensures WingetLine(line).Some? <==> HasTwoWords(line)
  {
    TrimEmptyIffBlank(line);
  }

  /** The records of a table: nothing without a header, else one per package line from two lines below it. */
  function WingetRecords(lines: seq<string>): (r: seq<PackageResult>)
    ensures (forall line :: line in lines ==> !IsHeader(line)) ==> r == []
    ensures r != [] ==> HeaderIndex(lines).Some? && HeaderIndex(lines).value + 2 + |r| <= |lines|
  {
    match HeaderIndex(lines)
    case None => []
    case Some(h) => if h + 2 <= |lines| then Collect(lines[h + 2..], WingetLine) else []
  }

  /** `parse_search_output`. */
  method ParseSearchOutput(output: string) returns (results: seq<PackageResult>)
    ensures results == WingetRecords(Lines(output))
  {
    var lines := Lines(output);
    match HeaderIndex(lines) {
      case None =>
        results := [];
      case Some(headerIdx) =>
        var start := headerIdx + 2;
        if start > |lines| {
          results := [];
        } else {
          results := ParseRows(lines[start..]);
        }
    }
  }

  /** The loop of `parse_search_output` over the lines below the separator. */
  method ParseRows(body: seq<string>) returns (results: seq<PackageResult>)
    ensures results == Collect(body, WingetLine)
  {
    results := [];
    var i := 0;
    while i < |body|
      invariant i <= |body|
      invariant results == Collect(body[..i], WingetLine)
    {
      CollectStep(body, i, WingetLine);
      var record := ParseRow(body[i]);
      if record.Some? {
        results := results + [record.value];
      }
      i := i + 1;
    }
    assert body[..i] == body;
  }

  /** The loop body for one line: blank lines and lines of fewer than two words are skipped. */
  method ParseRow(line: string) returns (record: Option<PackageResult>)
    ensures record == WingetLine(line)
  {
    if Trim(line) == [] {
      return None;
    }
    var parts := SplitWhitespace(line);
    if |parts| < 2 {
      return None;
    }
    var result := New(parts[0], "winget");
    if |parts| > 2 {
      result := WithVersion(result, parts[2]);
    }
    result := WithDescription(result, "ID: " + parts[1]);
    return Some(result);
  }

  /** `search`: the parsed output of a successful `winget search`, or the command's error. */
  method Search(o: Backends.CommandOutput) returns (r: Result<seq<PackageResult>>)
    ensures r.Ok? <==> o.Exited? && o.success
    ensures r.Ok? ==> r.value == WingetRecords(Lines(o.stdout))
  {
    match Backends.RunCommandOutput(o)
    case Err(e) => r := Err(e);
    case Ok(out) =>
      var results := ParseSearchOutput(out);
      r := Ok(results);
  }

  /** `name`. */
  lemma WingetName()
    ensures Backends.Name(Backends.Winget) == "winget"
  {
  }

  /**
   * Everything up to the first header line and the separator after it is
   * ignored: the records are those of the lines below.
   */
  lemma WingetSkipsToBody(before: seq<string>, header: string, separator: string, body: seq<string>)
    requires forall line :: line in before ==> !IsHeader(line)
    requires IsHeader(header)
    ensures WingetRecords(before + [header, separator] + body) == Collect(body, WingetLine)
  {
    FirstWhereAfter(before, header, [separator] + body, IsHeader);
    assert before + [header, separator] + body == before + [header] + ([separator] + body);
    var lines := before + [header, separator] + body;
    assert lines[|before| + 2..] == body;
  }

  /** One record per line with at least two words below the separator. */
  lemma WingetCount(lines: seq<string>, h: nat)
    requires HeaderIndex(lines) == Some(h) && h + 2 <= |lines|
    ensures |WingetRecords(lines)| == CountWhere(lines[h + 2..], HasTwoWords)
  {
    WingetRecordsAt(lines, h);
    WingetBodyCount(lines[h + 2..]);
  }

  /** With the header at `h`, the records are those of the lines from `h + 2`. */
  lemma WingetRecordsAt(lines: seq<string>, h: nat)
    requires HeaderIndex(lines) == Some(h) && h + 2 <= |lines|
    ensures WingetRecords(lines) == Collect(lines[h + 2..], WingetLine)
  {
  }

  /** Below the separator, one record per line with two or more words. */
  lemma WingetBodyCount(body: seq<string>)
    ensures |Collect(body, WingetLine)| == CountWhere(body, HasTwoWords)
  {
    WingetKeepsTwoWordLines(body);
    CollectCount(body, WingetLine, HasTwoWords);
  }

  /** Over a whole body: kept exactly when the line has two words. */
  lemma WingetKeepsTwoWordLines(body: seq<string>)
    ensures forall line :: line in body ==> (WingetLine(line).Some? <==> HasTwoWords(line))
  {
    forall line | line in body
      ensures WingetLine(line).Some? <==> HasTwoWords(line)
    {
      WingetLineKeeps(line);
    }
  }

  /** A line of two or more words: name, "ID: " and the id, and the third word as version. */
  lemma WingetWords(words: seq<string>)
    requires |words| >= 2
    requires forall w :: w in words ==> w != [] && NoSpace(w)
    ensures var named := New(words[0], "winget");
      WingetLine(Join(words, " ")) ==
        Some(WithDescription(if |words| > 2 then WithVersion(named, words[2]) else named, "ID: " + words[1]))
  {
    SplitWhitespaceJoin(words);
    TrimEmptyIffBlank(Join(words, " "));
  }
}
