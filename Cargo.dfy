/**
 * The Cargo backend: `cargo search` prints lines like
 * `name = "version"    # description`; each line holding ` = "` becomes a
 * record. The exit status of the search is not checked. `install` and
 * `update` run `cargo install <package>`.
 */
module CargoBackend {
  import opened Wrappers
  import opened Text
  import opened Aggregator
  import Backends

  const Assign := " = \""
  const Comment := "\" # "

  /**
   * One line: split on every ` = "`; the name is the trimmed first piece;
   * the second piece is split on every `" # `, its first part is the
   * version (untrimmed) and its second part, trimmed, the description
   * ("" when there is none).
   */
  function CargoLine(line: string): (r: Option<PackageResult>)
    ensures r.Some? <==> Contains(line, Assign)
    ensures r.Some? ==>
      r.value.version.Some? && r.value.description.Some? && r.value.source == "cargo" && r.value.score == 0
  {
    if !Contains(line, Assign) then None
    else
      SplitStrFirst(line, Assign);
      var parts := SplitStr(line, Assign);
      var versionParts := SplitStr(parts[1], Comment);
      var description := if |versionParts| > 1 then Trim(versionParts[1]) else "";
      Some(PackageResult(Trim(parts[0]), Some(versionParts[0]), Some(description), "cargo", 0))
  }

  /** `search`: the records of the output lines of any run that started, whatever its exit status. */
  method Search(o: Backends.CommandOutput) returns (r: Result<seq<PackageResult>>)
    ensures r.Ok? <==> o.Exited?
    ensures r.Ok? ==> r.value == Collect(Lines(o.stdout), CargoLine)
  {
    var output := Backends.OutputIgnoringStatus(o);
    if output.Err? {
      return Err(output.error);
    }
    var results := ParseLines(Lines(output.value));
    r := Ok(results);
  }

  /** The search loop over the output lines. */
  method ParseLines(lines: seq<string>) returns (results: seq<PackageResult>)
    ensures results == Collect(lines, CargoLine)
  {
    results := [];
    var i := 0;
    while i < |lines|
      invariant i <= |lines|
      invariant results == Collect(lines[..i], CargoLine)
    {
      CollectStep(lines, i, CargoLine);
      var record := ParseLine(lines[i]);
      if record.Some? {
        results := results + [record.value];
      }
      i := i + 1;
    }
    assert lines[..i] == lines;
  }

  /** The body of the search loop for one line. */
  method ParseLine(line: string) returns (record: Option<PackageResult>)
    ensures record == CargoLine(line)
  {
    if !Contains(line, Assign) {
      return None;
    }
    SplitStrFirst(line, Assign);
    var parts := SplitStr(line, Assign);
    var name := Trim(parts[0]);
    var secondHalf := parts[1];
    var versionParts := SplitStr(secondHalf, Comment);
    var version := versionParts[0];
    var description := if |versionParts| > 1 then Trim(versionParts[1]) else "";
    return Some(PackageResult(name, Some(version), Some(description), "cargo", 0));
  }

  /** The command `install` runs. */
  function InstallCommand(package: string): seq<string> {
    ["cargo", "install", package]
  }

  /** `install`: runs `cargo install <package>` and succeeds exactly when it exits successfully. */
  function Install(package: string, run: seq<string> -> Backends.CommandOutput): (r: Result<()>)
    ensures r.Ok? <==> run(["cargo", "install", package]).Exited? && run(["cargo", "install", package]).success
  {
    Backends.RunStatus(run(InstallCommand(package)), "cargo install failed")
  }

  /** `update` is `install`: the same command, the same outcome. */
  function Update(package: string, run: seq<string> -> Backends.CommandOutput): (r: Result<()>)
    ensures r.Ok? <==> run(["cargo", "install", package]).Exited? && run(["cargo", "install", package]).success
  {
    Install(package, run)
  }

  /** One record per line that contains ` = "`, and no other. */
  lemma CargoCount(output: string)
    ensures |Collect(Lines(output), CargoLine)| == CountWhere(Lines(output), line => Contains(line, Assign))
  {
    CollectCount(Lines(output), CargoLine, line => Contains(line, Assign));
  }

  /** Every record comes from a line holding ` = "` and has a version, a description and source "cargo". */
  lemma CargoRecords(output: string, x: PackageResult)
    requires x in Collect(Lines(output), CargoLine)
    ensures exists line :: line in Lines(output) && Contains(line, Assign) && CargoLine(line) == Some(x)
    ensures x.version.Some? && x.description.Some? && x.source == "cargo"
  {
    CollectFrom(Lines(output), CargoLine, x);
  }

  /** The pieces of the line, when the name holds no '=' and the rest no further ` = "`. */
  lemma SecondPiece(name: string, rest: string)
    requires '=' !in name && '=' !in rest
    ensures Contains(name + Assign + rest, Assign)
    ensures SplitStr(name + Assign + rest, Assign) == [name, rest]
  {
    var line := name + Assign + rest;
    assert Assign[1] == '=' && Assign[..1] == " ";
    PatternNotInside(name, Assign, rest, 1);
    SplitOnceFirst(name, Assign, rest);
    assert SplitOnce(line, Assign) == Some((name, rest));
    SplitStrFirst(line, Assign);
    assert SplitStr(line, Assign) == [name] + SplitStr(rest, Assign);
    AbsentPattern(rest, Assign, 1);
    SplitStrFirst(rest, Assign);
  }

  /**
   * A `name = "version" # description` line: the trimmed name, the version
   * exactly as written between the quotes, the trimmed description.
   */
  lemma CargoRow(name: string, version: string, desc: string)
    requires '=' !in name && '=' !in version && '=' !in desc
    requires '"' !in version && '"' !in desc
    ensures CargoLine(name + Assign + version + Comment + desc) ==
      Some(PackageResult(Trim(name), Some(version), Some(Trim(desc)), "cargo", 0))
  {
    var rest := version + Comment + desc;
    assert '=' !in rest;
    assert name + Assign + version + Comment + desc == name + Assign + rest;
    SecondPiece(name, rest);
    VersionPieces(version, desc);
  }

  /** The part after ` = "` splits at `" # ` into the version and the description. */
  lemma VersionPieces(version: string, desc: string)
    requires '"' !in version && '"' !in desc
    ensures SplitStr(version + Comment + desc, Comment) == [version, desc]
  {
    var rest := version + Comment + desc;
    assert Comment[0] == '"' && Comment[..0] == [];
    PatternNotInside(version, Comment, desc, 0);
    SplitOnceFirst(version, Comment, desc);
    assert SplitOnce(rest, Comment) == Some((version, desc));
    SplitStrFirst(rest, Comment);
    assert SplitStr(rest, Comment) == [version] + SplitStr(desc, Comment);
    AbsentPattern(desc, Comment, 0);
    SplitStrFirst(desc, Comment);
  }

  /** A line with no `" # ` after the version gives the description "". */
  lemma CargoRowWithoutComment(name: string, version: string)
    requires '=' !in name && '=' !in version && '"' !in version
    ensures CargoLine(name + Assign + version) == Some(PackageResult(Trim(name), Some(version), Some(""), "cargo", 0))
  {
    SecondPiece(name, version);
    NoComment(version);
  }

  /** Text without '"' is a single piece when split at `" # `. */
  lemma NoComment(version: string)
    requires '"' !in version
    ensures SplitStr(version, Comment) == [version]
  {
    assert Comment[0] == '"';
    AbsentPattern(version, Comment, 0);
    SplitStrFirst(version, Comment);
  }
}
