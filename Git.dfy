/**
 * The git backend: installs from a repository URL by cloning it into a
 * work directory and running the build system found there. Directory
 * operations, the files present after the clone and the exit status of
 * each command are inputs; the outcome records the actions taken, in order.
 */
module GitBackend {
  import opened Wrappers
  import opened Text
  import opened Aggregator
  import Backends

  const NotARepoUrl := "Git installation requires a repository URL (e.g., https://github.com/user/repo)"
  const NoBuildSystem := "Could not detect build system for this repository"
  const UninstallUnsupported :=
    "Uninstall for git source-installs is not yet supported. Please uninstall manually using the build tool (e.g., cargo uninstall)"

  /** A side effect of `install`. */
  datatype Action = RemoveDir(dir: string) | CreateDir(dir: string) | Exec(command: seq<string>)

  /** What the environment answers: directory operations, files in the clone, command exit statuses. */
  datatype Env = Env(
    dirExists: bool,
    removeOk: bool,
    createOk: bool,
    files: string -> bool,
    run: seq<string> -> Backends.CommandOutput)

  /** The result of an operation and the actions it took. */
  datatype Outcome = Outcome(result: Result<()>, actions: seq<Action>)

  /** The build systems `build_and_install` recognises. */
  datatype BuildSystem = CargoProject | MakeProject | NpmProject

  /** `starts_with("http") || starts_with("git@")`. */
  predicate IsRepoUrl(url: string) {
    StartsWith(url, "http") || StartsWith(url, "git@")
  }

  /** The work directory's leaf: the text after the last '/', with every trailing ".git" removed. */
  function WorkDirName(url: string): (r: string)
    ensures '/' !in r && !EndsWith(r, ".git")
  {
    var leaf := LastPiece(url, '/');
    LastPieceHasNoSeparator(url, '/');
    TrimEndMatches(leaf, ".git")
  }

  /** The last piece never holds the separator. */
  lemma LastPieceHasNoSeparator(s: string, sep: char)
    ensures sep !in LastPiece(s, sep)
  {
    SplitThenJoin(s, sep);
    var pieces := Split(s, sep);
    if sep in pieces[|pieces| - 1] {
      SplitPiecesFree(s, sep);
    }
  }

  /** No piece of a split holds the separator. */
  lemma {:induction false} SplitPiecesFree(s: string, sep: char)
    ensures forall p :: p in Split(s, sep) ==> sep !in p
    decreases |s|
  {
    match IndexOf(s, sep)
    case None =>
    case Some(i) =>
      SplitPiecesFree(s[i + 1..], sep);
  }

  /** The work directory for a URL: one level below "1install-git". */
  function WorkDir(url: string): (r: string)
    ensures StartsWith(r, "1install-git/") && '/' !in r[|"1install-git/"|..]
    ensures !EndsWith(r, ".git")
  {
    var leaf := WorkDirName(url);
    var r := "1install-git/" + leaf;
    assert r[|"1install-git/"|..] == leaf;
    assert r[|r| - 4..] != ".git" by {
      if |leaf| >= 4 {
        assert r[|r| - 4..] == leaf[|leaf| - 4..];
      } else {
        assert r[|r| - 4..][3 - |leaf|] == r[12] == '/';
      }
    }
    r
  }

  /** Web and ssh repository addresses are accepted; a bare word not starting with 'h' or 'g' is not. */
  lemma RepoUrlForms(rest: string, word: string)
    requires word == [] || (word[0] != 'h' && word[0] != 'g')
    ensures IsRepoUrl("https://" + rest) && IsRepoUrl("http://" + rest) && IsRepoUrl("git@" + rest)
    ensures !IsRepoUrl(word)
  {
    assert ("https://" + rest)[..4] == "http";
    assert ("http://" + rest)[..4] == "http";
    assert ("git@" + rest)[..4] == "git@";
    if |word| >= 4 {
      assert word[..4][0] == word[0];
    }
  }

  /** The actions up to and including the clone: optional removal, creation, clone. */
  function UpToClone(url: string, env: Env): (r: seq<Action>)
    ensures |r| >= 2 && r[|r| - 1] == Exec(CloneCommand(url))
    ensures forall k :: 0 <= k < |r| - 1 ==> !r[k].Exec?
  {
    var dir := WorkDir(url);
    (if env.dirExists then [RemoveDir(dir)] else []) + [CreateDir(dir), Exec(CloneCommand(url))]
  }

  /** A command other than the clone. */
  predicate IsBuildStep(a: Action, url: string) {
    a.Exec? && a != Exec(CloneCommand(url))
  }

  /** The clone command. */
  function CloneCommand(url: string): seq<string> {
    ["git", "clone", "--depth", "1", url, "."]
  }

  predicate Succeeded(o: Backends.CommandOutput) {
    o.Exited? && o.success
  }

  /**
   * The build system, by the first marker file present: Cargo.toml, then
   * Makefile or makefile, then package.json; none is an error.
   */
  function DetectBuildSystem(files: string -> bool): (r: Option<BuildSystem>)
    ensures r == Some(CargoProject) <==> files("Cargo.toml")
    ensures r == Some(MakeProject) <==> !files("Cargo.toml") && (files("Makefile") || files("makefile"))
    ensures r == Some(NpmProject) <==>
      !files("Cargo.toml") && !files("Makefile") && !files("makefile") && files("package.json")
    ensures r == None <==>
      !files("Cargo.toml") && !files("Makefile") && !files("makefile") && !files("package.json")
  {
    if files("Cargo.toml") then Some(CargoProject)
    else if files("Makefile") || files("makefile") then Some(MakeProject)
    else if files("package.json") then Some(NpmProject)
    else None
  }

  /**
   * `build_and_install`: one command for Cargo and npm projects; for a
   * Makefile, `make` and then, only if it succeeded, `make install`.
   */
  function BuildAndInstall(env: Env): (r: Outcome)
    ensures r.result.Ok? ==> DetectBuildSystem(env.files).Some?
    ensures forall k :: 0 <= k < |r.actions| ==> r.actions[k].Exec?
    ensures forall k :: 0 <= k < |r.actions| && r.actions[k] == Exec(["make", "install"]) ==>
      k > 0 && r.actions[k - 1] == Exec(["make"]) && Succeeded(env.run(["make"]))
  {
    match DetectBuildSystem(env.files)
    case None => Outcome(Err(NoBuildSystem), [])
    case Some(CargoProject) =>
      var c := ["cargo", "install", "--path", "."];
      Outcome(Backends.RunStatus(env.run(c), "cargo install failed"), [Exec(c)])
    case Some(MakeProject) =>
      if !Succeeded(env.run(["make"])) then
        Outcome(Backends.RunStatus(env.run(["make"]), "make failed"), [Exec(["make"])])
      else
        var c := ["make", "install"];
        Outcome(Backends.RunStatus(env.run(c), "make install failed"), [Exec(["make"]), Exec(c)])
    case Some(NpmProject) =>
      var c := ["npm", "install", "-g", "."];
      Outcome(Backends.RunStatus(env.run(c), "npm install failed"), [Exec(c)])
  }

  /**
   * `install`: check the URL; empty the work directory (remove it if it
   * exists, then create it); clone; build; remove the work directory. The
   * first failing step ends the call with its error, leaving the
   * directory in place.
   */
  function Install(url: string, env: Env): (r: Outcome)
    ensures !IsRepoUrl(url) ==> r.result.Err? && r.actions == []
    ensures r.result.Ok? <==>
      IsRepoUrl(url) && (env.dirExists ==> env.removeOk) && env.createOk &&
      Succeeded(env.run(CloneCommand(url))) && BuildAndInstall(env).result.Ok?
  {
    if !IsRepoUrl(url) then
      Outcome(Err(NotARepoUrl), [])
    else
      var dir := WorkDir(url);
      var removed := if env.dirExists then [RemoveDir(dir)] else [];
      if env.dirExists && !env.removeOk then Outcome(Err("could not remove " + dir), removed)
      else
        if !env.createOk then Outcome(Err("could not create " + dir), removed + [CreateDir(dir)])
        else
          var cloned := UpToClone(url, env);
          if !Succeeded(env.run(CloneCommand(url))) then
            Outcome(Backends.RunStatus(env.run(CloneCommand(url)), "git clone failed"), cloned)
          else
            var build := BuildAndInstall(env);
            if build.result.Err? then Outcome(build.result, cloned + build.actions)
            else Outcome(Ok(()), cloned + build.actions + [RemoveDir(dir)])
  }

  /** `update` re-installs: the same checks, actions and outcome as `install`. */
  function Update(url: string, env: Env): (r: Outcome)
    ensures !IsRepoUrl(url) ==> r.result.Err? && r.actions == []
    ensures r.result.Ok? ==> Exec(CloneCommand(url)) in r.actions
  {
    InstallSucceededCloned(url, env);
    Install(url, env)
  }

  /** `search`: there is no index to search, so it always succeeds with no records. */
  function Search(query: string): (r: Result<seq<PackageResult>>)
    ensures r.Ok? && r.value == []
  {
    Ok([])
  }

  /** `uninstall`: never supported. */
  function Uninstall(url: string): (r: Result<()>)
    ensures r.Err?
  {
    Err(UninstallUnsupported)
  }

  /** On the path past the clone, the actions are those up to the clone, then the build's, then the cleanup on success. */
  lemma InstallActions(url: string, env: Env)
    requires IsRepoUrl(url) && (env.dirExists ==> env.removeOk) && env.createOk && Succeeded(env.run(CloneCommand(url)))
    ensures Install(url, env).actions ==
      UpToClone(url, env) + BuildAndInstall(env).actions + (if BuildAndInstall(env).result.Ok? then [RemoveDir(WorkDir(url))] else [])
  {
  }

  /** Before the clone, or when it fails, no command other than the clone has run. */
  lemma InstallBeforeBuild(url: string, env: Env)
    requires !(IsRepoUrl(url) && (env.dirExists ==> env.removeOk) && env.createOk && Succeeded(env.run(CloneCommand(url))))
    ensures forall a :: a in Install(url, env).actions && a.Exec? ==> a == Exec(CloneCommand(url))
  {
  }

  /** A successful install cloned the repository. */
  lemma InstallSucceededCloned(url: string, env: Env)
    ensures Install(url, env).result.Ok? ==> Exec(CloneCommand(url)) in Install(url, env).actions
  {
    if Install(url, env).result.Ok? {
      InstallActions(url, env);
      var c := UpToClone(url, env);
      assert Install(url, env).actions[|c| - 1] == c[|c| - 1];
    }
  }

  /** On the path past the clone, the actions start with those up to the clone, followed by the build's. */
  lemma InstallActionsAt(url: string, env: Env)
    requires IsRepoUrl(url) && (env.dirExists ==> env.removeOk) && env.createOk && Succeeded(env.run(CloneCommand(url)))
    ensures forall k :: 0 <= k < |UpToClone(url, env)| ==> Install(url, env).actions[k] == UpToClone(url, env)[k]
    ensures forall k :: 0 <= k < |BuildAndInstall(env).actions| ==>
      Install(url, env).actions[|UpToClone(url, env)| + k] == BuildAndInstall(env).actions[k]
    ensures forall k :: |UpToClone(url, env)| + |BuildAndInstall(env).actions| <= k < |Install(url, env).actions| ==>
      Install(url, env).actions[k] == RemoveDir(WorkDir(url))
  {
    InstallActions(url, env);
  }

  /** Off that path, no command other than the clone has run. */
  lemma InstallBeforeBuildAt(url: string, env: Env)
    requires !(IsRepoUrl(url) && (env.dirExists ==> env.removeOk) && env.createOk && Succeeded(env.run(CloneCommand(url))))
    ensures forall k :: 0 <= k < |Install(url, env).actions| && Install(url, env).actions[k].Exec? ==>
      Install(url, env).actions[k] == Exec(CloneCommand(url))
  {
    InstallBeforeBuild(url, env);
    var acts := Install(url, env).actions;
    forall k | 0 <= k < |acts|
      ensures acts[k] in acts
    {
    }
  }

  /**
   * Every build command runs after the clone, and only once the clone
   * succeeded.
   */
  lemma BuildOnlyAfterClone(url: string, env: Env)
    ensures forall k :: 0 <= k < |Install(url, env).actions| && IsBuildStep(Install(url, env).actions[k], url) ==>
      Exec(CloneCommand(url)) in Install(url, env).actions[..k] && Succeeded(env.run(CloneCommand(url)))
  {
    var acts := Install(url, env).actions;
    if IsRepoUrl(url) && (env.dirExists ==> env.removeOk) && env.createOk && Succeeded(env.run(CloneCommand(url))) {
      InstallActionsAt(url, env);
      var c := UpToClone(url, env);
      var n := |c|;
      forall k | n <= k <= |acts|
        ensures Exec(CloneCommand(url)) in acts[..k]
      {
        assert acts[..k][n - 1] == c[n - 1];
      }
    } else {
      InstallBeforeBuildAt(url, env);
    }
  }

  /** `make install` runs only right after a `make` that succeeded. */
  lemma MakeInstallAfterMake(url: string, env: Env)
    ensures forall k :: 0 <= k < |Install(url, env).actions| && Install(url, env).actions[k] == Exec(["make", "install"]) ==>
      k > 0 && Install(url, env).actions[k - 1] == Exec(["make"]) && Succeeded(env.run(["make"]))
  {
    assert Exec(["make", "install"]) != Exec(CloneCommand(url)) by {
      assert |["make", "install"]| != |CloneCommand(url)|;
    }
    if IsRepoUrl(url) && (env.dirExists ==> env.removeOk) && env.createOk && Succeeded(env.run(CloneCommand(url))) {
      InstallActionsAt(url, env);
    } else {
      InstallBeforeBuildAt(url, env);
    }
  }

  /** The work directory of `<prefix>/<name>.git` or `<prefix>/<name>` is `name`. */
  lemma WorkDirOfRepo(prefix: string, name: string)
    requires '/' !in name && !EndsWith(name, ".git")
    ensures WorkDirName(prefix + "/" + name + ".git") == name
    ensures WorkDirName(prefix + "/" + name) == name
  {
    var s := name + ".git";
    assert prefix + "/" + name + ".git" == prefix + ['/'] + s;
    LastPieceAfter(prefix, s, '/');
    assert EndsWith(s, ".git") && s[..|s| - 4] == name;
    assert TrimEndMatches(s, ".git") == TrimEndMatches(name, ".git");
    assert TrimEndMatches(name, ".git") == name;
    assert prefix + "/" + name == prefix + ['/'] + name;
    LastPieceAfter(prefix, name, '/');
  }

  /** `name`. */
  lemma GitName()
    ensures Backends.Name(Backends.Git) == "git"
  {
  }
}
