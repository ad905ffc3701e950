/**
 * The package-manager backends: which ones exist, their names, the default
 * backend for a platform and the list of available ones. Whether a
 * backend's command exists and what a spawned command printed are inputs.
 */
module Backends {
  import opened Wrappers
  import opened Os

  /** Every backend adapter; `Pip` remembers whether `pipx` was found when it was built. */
  datatype BackendKind = Winget | Apt | Brew | Npm | Pip(usePipx: bool) | Flatpak | Dnf | Pacman | Cargo | Snap | Git | Go

  /** `Backend::name`. */
  function Name(b: BackendKind): string {
    match b
    case Winget => "winget"
    case Apt => "apt"
    case Brew => "brew"
    case Npm => "npm"
    case Pip(usePipx) => if usePipx then "pipx" else "pip"
    case Flatpak => "flatpak"
    case Dnf => "dnf"
    case Pacman => "pacman"
    case Cargo => "cargo"
    case Snap => "snap"
    case Git => "git"
    case Go => "go"
  }

  /** No two backends share a name, so a name picks out at most one backend. */
  lemma NamesDistinct(a: BackendKind, b: BackendKind)
    ensures Name(a) == Name(b) <==> a == b
  {
  }

  /** The pip backend is called "pipx" exactly when it uses pipx. */
  lemma PipName(usePipx: bool)
    ensures Name(Pip(usePipx)) == "pipx" <==> usePipx
    ensures Name(Pip(usePipx)) == "pip" <==> !usePipx
  {
    assert |"pipx"| != |"pip"|;
  }

  /** What a spawned command gave back: it could not be started, or it exited. */
  datatype CommandOutput = LaunchFailed | Exited(success: bool, stdout: string, stderr: string)

  /** `run_command_output`: the standard output of a successful run, else an error. */
  function RunCommandOutput(o: CommandOutput): (r: Result<string>)
    ensures r.Ok? <==> o.Exited? && o.success
    ensures r.Ok? ==> r.value == o.stdout
  {
    match o
    case LaunchFailed => Err("command could not be started")
    case Exited(success, stdout, stderr) =>
      if success then Ok(stdout) else Err("Command failed: " + stderr)
  }

  /** `.output()?` with the exit status ignored: the standard output of any run that started. */
  function OutputIgnoringStatus(o: CommandOutput): (r: Result<string>)
    ensures r.Ok? <==> o.Exited?
    ensures r.Ok? ==> r.value == o.stdout
  {
    match o
    case LaunchFailed => Err("command could not be started")
    case Exited(_, stdout, _) => Ok(stdout)
  }

  /** `.status()?` followed by a check of the exit status: `Ok(())` on success, else the step's error. */
  function RunStatus(o: CommandOutput, failure: string): (r: Result<()>)
    ensures r.Ok? <==> o.Exited? && o.success
    ensures o.Exited? && !o.success ==> r == Err(failure)
  {
    match o
    case LaunchFailed => Err("command could not be started")
    case Exited(success, _, _) => if success then Ok(()) else Err(failure)
  }

  /**
   * `get_backend_for_context`: the platform's default backend, or why there
   * is none: winget on Windows, Homebrew on macOS, apt on Debian-family
   * Linux and on an unrecognised Linux where apt exists, an error otherwise.
   */
  function BackendForContext(ctx: OsContext, aptAvailable: bool): (r: Result<BackendKind>)
    ensures r == Ok(Winget) <==> ctx.osType == Windows
    ensures r == Ok(Brew) <==> ctx.osType == MacOS
    ensures r == Ok(Apt) <==>
      ctx.osType == Linux(Debian) || (ctx.osType == Linux(LinuxDistro.Unknown) && aptAvailable)
    ensures r.Err? <==>
      ctx.osType in {Linux(Arch), Linux(Fedora), OsType.Unknown} || (ctx.osType == Linux(LinuxDistro.Unknown) && !aptAvailable)
  {
    match ctx.osType
    case Windows => Ok(Winget)
    case Linux(distro) =>
      (match distro
       case Debian => Ok(Apt)
       case Arch => Err("Pacman backend not yet implemented")
       case Fedora => Err("DNF backend not yet implemented")
       case Unknown => if aptAvailable then Ok(Apt) else Err("Could not detect a supported package manager"))
    case MacOS => Ok(Brew)
    case Unknown => Err("Unknown operating system")
  }

  /** The backends `get_all_available_backends` considers, in its order. */
  function Registered(usePipx: bool): (r: seq<BackendKind>)
    ensures |r| == 5
    ensures forall i, j :: 0 <= i < j < |r| ==> r[i] != r[j]
  {
    [Winget, Apt, Brew, Npm, Pip(usePipx)]
  }

  /** `filter(p)`: the elements that satisfy `p`, in order. */
  function Filter(s: seq<BackendKind>, p: BackendKind -> bool): (r: seq<BackendKind>)
    ensures |r| <= |s|
    ensures forall b :: b in r <==> b in s && p(b)
  {
    if s == [] then [] else (if p(s[0]) then [s[0]] else []) + Filter(s[1..], p)
  }

  /** `get_all_available_backends`: the registered backends that report themselves available. */
  function AvailableBackends(usePipx: bool, available: BackendKind -> bool): (r: seq<BackendKind>)
    ensures |r| <= 5
    ensures forall b :: b in r <==> b in Registered(usePipx) && available(b)
  {
    Filter(Registered(usePipx), available)
  }

  /** Filtering distributes over concatenation, so the kept elements stay in input order. */
  lemma {:induction false} FilterAppend(a: seq<BackendKind>, b: seq<BackendKind>, p: BackendKind -> bool)
    ensures Filter(a + b, p) == Filter(a, p) + Filter(b, p)
  {
    if a != [] {
      FilterAppend(a[1..], b, p);
      assert (a + b)[1..] == a[1..] + b;
    } else {
      assert a + b == b;
    }
  }

  /** The available backends are exactly the registered ones that are available, none twice. */
  lemma AvailableBackendsExact(usePipx: bool, available: BackendKind -> bool)
    ensures forall b :: b in AvailableBackends(usePipx, available) <==> b in Registered(usePipx) && available(b)
    ensures (forall b :: b in Registered(usePipx) ==> available(b)) ==> AvailableBackends(usePipx, available) == Registered(usePipx)
    ensures (forall b :: b in Registered(usePipx) ==> !available(b)) ==> AvailableBackends(usePipx, available) == []
  {
    var s := Registered(usePipx);
    var r := AvailableBackends(usePipx, available);
    FilterKeepsAll(s, available);
    if forall b :: b in s ==> !available(b) {
      if r != [] {
        assert r[0] in r;
      }
    }
  }

  /** A filter that every element passes changes nothing. */
  lemma {:induction false} FilterKeepsAll(s: seq<BackendKind>, p: BackendKind -> bool)
    ensures (forall b :: b in s ==> p(b)) ==> Filter(s, p) == s
  {
    if s != [] && forall b :: b in s ==> p(b) {
      FilterKeepsAll(s[1..], p);
      assert forall b :: b in s[1..] ==> b in s;
    }
  }
}
