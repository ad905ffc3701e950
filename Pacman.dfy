/**
 * The pacman backend. `pacman -Ss` prints each package on two lines: a
 * header `repo/name version [groups]` and an indented description. The
 * parser remembers the last header's name and version until an indented
 * line turns them into a record. The exit status of the search is not
 * checked. `install` and `update` run `sudo pacman -S --noconfirm <package>`.
 */
module PacmanBackend {
  import opened Wrappers
  import opened Text
  import opened Aggregator
  import Backends

  /** The parser's state: the records so far and the pending (name, version), `current_pkg`. */
  datatype ParseState = ParseState(results: seq<PackageResult>, pending: Option<(string, string)>)

  /** A description line starts with a space. */
  predicate Indented(line: string) {
    StartsWith(line, " ")
  }

  /**
   * One line: an indented line takes the pending package, if any, and adds
   * it with the trimmed line as description; any other line with two or more
   * words makes (last '/'-piece of word 0, word 1) the pending package;
   * anything else changes nothing.
   */
  function Step(st: ParseState, line: string): (r: ParseState)
    ensures r.results == st.results ||
            (|r.results| == |st.results| + 1 && r.results[..|st.results|] == st.results && Indented(line))
    ensures r.results != st.results ==> st.pending.Some? && r.pending.None?
  {
    if Indented(line) then
      match st.pending
      case None => st
      case Some((name, version)) =>
        ParseState(st.results + [PackageResult(name, Some(version), Some(Trim(line)), "pacman", 0)], None)
    else
      var parts := SplitWhitespace(line);
      if |parts| >= 2 then ParseState(st.results, Some((LastPiece(parts[0], '/'), parts[1]))) else st
  }

  /**
   * The state after the given lines, from an empty one: at most one record
   * per indented line, each with a version, a description and source
   * "pacman".
   */
  function Run(lines: seq<string>): (r: ParseState)
    ensures |r.results| <= CountWhere(lines, Indented)
    ensures forall x :: x in r.results ==>
      x.version.Some? && x.description.Some? && x.source == "pacman" && x.score == 0
    decreases |lines|
  {
    if lines == [] then ParseState([], None)
    else Step(Run(lines[..|lines| - 1]), lines[|lines| - 1])
  }

  /** `search`: the records of the output of any run that started, whatever its exit status. */
  method Search(o: Backends.CommandOutput) returns (r: Result<seq<PackageResult>>)
    ensures r.Ok? <==> o.Exited?
    ensures r.Ok? ==> r.value == Run(Lines(o.stdout)).results
  {
    var output := Backends.OutputIgnoringStatus(o);
    if output.Err? {
      return Err(output.error);
    }
    var results := ParseLines(Lines(output.value));
    r := Ok(results);
  }

  /** The search loop, with `current` the pending package. */
  method ParseLines(lines: seq<string>) returns (results: seq<PackageResult>)
    ensures results == Run(lines).results
  {
    results := [];
    var current: Option<(string, string)> := None;
    var i := 0;
    while i < |lines|
      invariant i <= |lines|
      invariant ParseState(results, current) == Run(lines[..i])
    {
      var line := lines[i];
      assert lines[..i + 1][..i] == lines[..i];
      if StartsWith(line, " ") {
        if current.Some? {
          var (name, version) := current.value;
          current := None;
          results := results + [PackageResult(name, Some(version), Some(Trim(line)), "pacman", 0)];
        }
      } else {
        var parts := SplitWhitespace(line);
        if |parts| >= 2 {
          var name := LastPiece(parts[0], '/');
          current := Some((name, parts[1]));
        }
      }
      i := i + 1;
    }
    assert lines[..i] == lines;
  }

  /** The command `install` runs. */
  function InstallCommand(package: string): seq<string> {
    ["sudo", "pacman", "-S", "--noconfirm", package]
  }

  /** `install`: succeeds exactly when `sudo pacman -S --noconfirm <package>` exits successfully. */
  function Install(package: string, run: seq<string> -> Backends.CommandOutput): (r: Result<()>)
    ensures r.Ok? <==> run(["sudo", "pacman", "-S", "--noconfirm", package]).Exited? &&
                       run(["sudo", "pacman", "-S", "--noconfirm", package]).success
  {
    Backends.RunStatus(run(InstallCommand(package)), "pacman install failed")
  }

  /** `update` is `install`: the same command, the same outcome. */
  function Update(package: string, run: seq<string> -> Backends.CommandOutput): (r: Result<()>)
    ensures r.Ok? <==> run(["sudo", "pacman", "-S", "--noconfirm", package]).Exited? &&
                       run(["sudo", "pacman", "-S", "--noconfirm", package]).success
  {
    Install(package, run)
  }

  /**
   * A header line of words followed by an indented description line adds
   * one record: the name after the repository prefix, the version, the
   * trimmed description; nothing is left pending.
   */
  lemma PacmanPair(st: ParseState, repo: string, name: string, words: seq<string>, desc: string)
    requires '/' !in name
    requires |words| >= 2 && words[0] == repo + "/" + name
    requires forall w :: w in words ==> w != [] && NoSpace(w)
    ensures Step(Step(st, Join(words, " ")), " " + desc) ==
      ParseState(st.results + [PackageResult(name, Some(words[1]), Some(Trim(desc)), "pacman", 0)], None)
  {
    var header := Join(words, " ");
    SplitWhitespaceJoin(words);
    assert !Indented(header) by {
      JoinCons(words[0], words[1..], " ");
      assert words[0] in words;
      assert header[0] == words[0][0];
    }
    LastPieceAfter(repo, name, '/');
    assert repo + "/" + name == repo + ['/'] + name;
    LeadingTrim(desc);
  }

  /** One leading space does not survive trimming. */
  lemma LeadingTrim(desc: string)
    ensures Trim(" " + desc) == Trim(desc)
  {
    assert TrimStartBy(" " + desc, IsSpace) == TrimStartBy(desc, IsSpace) by {
      assert (" " + desc)[1..] == desc;
    }
  }

  /** A description line while nothing is pending is ignored. */
  lemma OrphanDescription(lines: seq<string>, line: string)
    requires Run(lines).pending.None? && Indented(line)
    ensures Run(lines + [line]) == Run(lines)
  {
    assert (lines + [line])[..|lines|] == lines;
  }

  /** A later header replaces a pending one that had no description line. */
  lemma HeaderReplacesPending(lines: seq<string>, line: string)
    requires !Indented(line) && |SplitWhitespace(line)| >= 2
    ensures Run(lines + [line]).results == Run(lines).results
    ensures Run(lines + [line]).pending == Some((LastPiece(SplitWhitespace(line)[0], '/'), SplitWhitespace(line)[1]))
  {
    assert (lines + [line])[..|lines|] == lines;
  }
}
