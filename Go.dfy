/**
 * The Go backend: `install` and `update` run `go install` on the package
 * path, pinned to `@latest` unless a version is given; there is no search
 * index and no uninstall command.
 */
module GoBackend {
  import opened Wrappers
  import opened Text
  import opened Aggregator
  import Backends

  const UninstallUnsupported :=
    "Go does not support a native 'uninstall' command. Please manually remove the binary from your $GOPATH/bin."

  /** The argument of `go install`: the package as given when it names a version, else pinned to `@latest`. */
  function InstallTarget(package: string): (r: string)
    ensures '@' in r
    ensures StartsWith(r, package)
    ensures '@' in package <==> r == package
  {
    if '@' in package then package
    else
      assert (package + "@latest")[|package|] == '@';
      package + "@latest"
  }

  /** Pinning is idempotent: a target is its own target. */
  lemma InstallTargetIdempotent(package: string)
    ensures InstallTarget(InstallTarget(package)) == InstallTarget(package)
  {
  }

  /** A package without a version is pinned to exactly `@latest`. */
  lemma InstallTargetLatest(package: string)
    requires '@' !in package
    ensures InstallTarget(package) == package + "@latest"
    ensures InstallTarget(package)[|package|..] == "@latest"
  {
  }

  /** `install`: succeeds exactly when `go install <target>` exits successfully. */
  function Install(package: string, run: seq<string> -> Backends.CommandOutput): (r: Result<()>)
    ensures r.Ok? <==> run(["go", "install", InstallTarget(package)]).Exited? &&
                       run(["go", "install", InstallTarget(package)]).success
  {
    Backends.RunStatus(run(["go", "install", InstallTarget(package)]), "go install failed")
  }

  /** `update` re-installs, which with `@latest` fetches the newest version. */
  function Update(package: string, run: seq<string> -> Backends.CommandOutput): (r: Result<()>)
    ensures r.Ok? <==> run(["go", "install", InstallTarget(package)]).Exited? &&
                       run(["go", "install", InstallTarget(package)]).success
  {
    Install(package, run)
  }

  /** `search`: always succeeds with no records. */
  function Search(query: string): (r: Result<seq<PackageResult>>)
    ensures r.Ok? && r.value == []
  {
    Ok([])
  }

  /** `uninstall`: never supported. */
  function Uninstall(package: string): (r: Result<()>)
    ensures r.Err?
  {
    Err(UninstallUnsupported)
  }

  /** `name`. */
  lemma GoName()
    ensures Backends.Name(Backends.Go) == "go"
  {
  }
}
