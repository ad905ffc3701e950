/**
 * The Flatpak backend's search: `flatpak search` prints a tab-separated
 * table (name, description, application id, version, ...); the parser also
 * accepts lines of at least three whitespace-separated words. The exit
 * status is not checked.
 */
module FlatpakBackend {
  import opened Wrappers
  import opened Text
  import opened Aggregator
  import Backends

  /** What one line does in the search loop as the code is written. */
  datatype LineOutcome = Panic | Skip | Emit(record: PackageResult)

  /**
   * One line as written: three or more tab fields read field 3 as the
   * version, so a line of exactly three tab fields indexes past the end.
   */
  function FlatpakLineAsWritten(line: string): (r: LineOutcome)
    ensures r.Panic? <==> |Split(line, '\t')| == 3
  {
    var fields := Split(line, '\t');
    if |fields| >= 3 then
      if |fields| == 3 then Panic
      else Emit(PackageResult(Trim(fields[0]), Some(Trim(fields[3])), Some(Trim(fields[1])), "flatpak", 0))
    else
      var words := SplitWhitespace(line);
      if |words| >= 3 then
        Emit(PackageResult(words[0], if |words| > 3 then Some(words[3]) else None, Some(words[1]), "flatpak", 0))
      else Skip
  }

  /** A line of exactly three tab-separated fields stops the search with an out-of-range index. */
  lemma ThreeTabFieldsPanic(fields: seq<string>)
    requires |fields| == 3
    requires forall f :: f in fields ==> '\t' !in f
    ensures FlatpakLineAsWritten(Join(fields, "\t")) == Panic
  {
    JoinThenSplit(fields, '\t');
  }

  /**
   * One line, with the version read from field 3 only when there is one:
   * a tab row of three or more fields gives name and description from
   * fields 0 and 1; otherwise three or more words give name, description
   * and (from word 3) version; any other line gives nothing.
   */
  function FlatpakLine(line: string): (r: Option<PackageResult>)
    ensures r.Some? <==> |Split(line, '\t')| >= 3 || |SplitWhitespace(line)| >= 3
    ensures r.Some? ==> r.value.source == "flatpak" && r.value.description.Some? && r.value.score == 0
  {
    var fields := Split(line, '\t');
    if |fields| >= 3 then
      Some(PackageResult(Trim(fields[0]), if |fields| > 3 then Some(Trim(fields[3])) else None,
                         Some(Trim(fields[1])), "flatpak", 0))
    else
      var words := SplitWhitespace(line);
      if |words| >= 3 then
        Some(PackageResult(words[0], if |words| > 3 then Some(words[3]) else None, Some(words[1]), "flatpak", 0))
      else None
  }

  /** Wherever the code as written does not stop, it agrees with the corrected line parser. */
  lemma CorrectedAgreesElsewhere(line: string)
    ensures !FlatpakLineAsWritten(line).Panic? ==>
      FlatpakLine(line) == if FlatpakLineAsWritten(line).Emit? then Some(FlatpakLineAsWritten(line).record) else None
  {
  }

  /** `search`: the records of the output lines of any run that started, whatever its exit status. */
  method Search(o: Backends.CommandOutput) returns (r: Result<seq<PackageResult>>)
    ensures r.Ok? <==> o.Exited?
    ensures r.Ok? ==> r.value == Collect(Lines(o.stdout), FlatpakLine)
  {
    var output := Backends.OutputIgnoringStatus(o);
    if output.Err? {
      return Err(output.error);
    }
    var results := ParseLines(Lines(output.value));
    r := Ok(results);
  }

  /** The search loop over the output lines. */
  method ParseLines(lines: seq<string>) returns (results: seq<PackageResult>)
    ensures results == Collect(lines, FlatpakLine)
  {
    results := [];
    var i := 0;
    while i < |lines|
      invariant i <= |lines|
      invariant results == Collect(lines[..i], FlatpakLine)
    {
      CollectStep(lines, i, FlatpakLine);
      var record := ParseLine(lines[i]);
      if record.Some? {
        results := results + [record.value];
      }
      i := i + 1;
    }
    assert lines[..i] == lines;
  }

  /** The body of the search loop for one line. */
  method ParseLine(line: string) returns (record: Option<PackageResult>)
    ensures record == FlatpakLine(line)
  {
    var parts := Split(line, '\t');
    if |parts| >= 3 {
      var version := if |parts| > 3 then Some(Trim(parts[3])) else None;
      return Some(PackageResult(Trim(parts[0]), version, Some(Trim(parts[1])), "flatpak", 0));
    }
    var words := SplitWhitespace(line);
    if |words| >= 3 {
      var version := if |words| > 3 then Some(words[3]) else None;
      return Some(PackageResult(words[0], version, Some(words[1]), "flatpak", 0));
    }
    return None;
  }

  /** `name`. */
  lemma FlatpakName()
    ensures Backends.Name(Backends.Flatpak) == "flatpak"
  {
  }

  /** A tab row: trimmed name and description from fields 0 and 1, the trimmed version from field 3 when present. */
  lemma FlatpakTabRow(fields: seq<string>)
    requires |fields| >= 3
    requires forall f :: f in fields ==> '\t' !in f
    ensures FlatpakLine(Join(fields, "\t")) ==
      Some(PackageResult(Trim(fields[0]), if |fields| > 3 then Some(Trim(fields[3])) else None,
                         Some(Trim(fields[1])), "flatpak", 0))
  {
    JoinThenSplit(fields, '\t');
  }

  /** A line of words with no tab: name, description and version are words 0, 1 and 3. */
  lemma FlatpakWordRow(words: seq<string>)
    requires |words| >= 3
    requires forall w :: w in words ==> w != [] && NoSpace(w)
    ensures FlatpakLine(Join(words, " ")) ==
      Some(PackageResult(words[0], if |words| > 3 then Some(words[3]) else None, Some(words[1]), "flatpak", 0))
  {
    var line := Join(words, " ");
    forall w | w in words
      ensures '\t' !in w
    {
      assert forall k :: 0 <= k < |w| ==> !IsSpace(w[k]);
    }
    JoinAvoids(words, " ", '\t');
    assert Split(line, '\t') == [line];
    SplitWhitespaceJoin(words);
  }

  /** Every record comes from a line that is a tab row or has three words. */
  lemma FlatpakRecords(output: string, x: PackageResult)
    requires x in Collect(Lines(output), FlatpakLine)
    ensures exists line :: line in Lines(output) && (|Split(line, '\t')| >= 3 || |SplitWhitespace(line)| >= 3)
    ensures x.source == "flatpak" && x.description.Some? && x.score == 0
  {
    CollectFrom(Lines(output), FlatpakLine, x);
  }
}
