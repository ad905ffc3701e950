/**
 * The library's commands that tie the parts together: searching every
 * available backend and ranking the merged results, and installing a
 * package with a chosen backend and then, if configured, registering a
 * shim for it. Backend searches and installs, the binary lookup, the shim
 * file and the registry file are inputs.
 */
module Orchestration {
  import opened Wrappers
  import opened Text
  import opened Aggregator
  import opened Os
  import opened Backends
  import opened Registry
  import Settings

  // ---------------------------------------------------------------- search

  /** The records of every backend whose search succeeded, in backend order; failed searches add nothing. */
  function Merge(backends: seq<BackendKind>, search: BackendKind -> Result<seq<PackageResult>>): (r: seq<PackageResult>)
    ensures forall x :: x in r ==> exists b :: b in backends && search(b).Ok? && x in search(b).value
    decreases |backends|
  {
    if backends == [] then []
    else
      var init, last := backends[..|backends| - 1], backends[|backends| - 1];
      assert forall b :: b in init ==> b in backends;
      Merge(init, search) + match search(last) case Ok(rs) => rs case Err(_) => []
  }

  /** Every backend's records, front to back, when every search succeeds. */
  function Concatenated(backends: seq<BackendKind>, search: BackendKind -> Result<seq<PackageResult>>): seq<PackageResult>
    requires forall b :: b in backends ==> search(b).Ok?
  {
    if backends == [] then []
    else
      assert forall b :: b in backends[1..] ==> b in backends;
      search(backends[0]).value + Concatenated(backends[1..], search)
  }

  /** What `search_packages` shows: nothing to search, or the ranked records. */
  datatype SearchOutcome = NoBackends | Ranked(results: seq<PackageResult>)

  /**
   * `search_packages`: with no available backend, return at once without
   * searching; otherwise search each available backend in order, keep the
   * records of those that succeed, and rank them. `searched` lists the
   * backends whose search was called.
   */
  method SearchPackages(query: string, usePipx: bool, available: BackendKind -> bool,
                        search: BackendKind -> Result<seq<PackageResult>>)
    returns (outcome: SearchOutcome, searched: seq<BackendKind>)
    ensures AvailableBackends(usePipx, available) == [] ==> outcome == NoBackends && searched == []
    ensures AvailableBackends(usePipx, available) != [] ==>
      searched == AvailableBackends(usePipx, available) &&
      outcome == Ranked(SortByScore(ScoreAll(query, Merge(searched, search))))
  {
    var backends := AvailableBackends(usePipx, available);
    if backends == [] {
      return NoBackends, [];
    }
    var all: seq<PackageResult> := [];
    searched := [];
    var i := 0;
    while i < |backends|
      invariant i <= |backends|
      invariant searched == backends[..i]
      invariant all == Merge(backends[..i], search)
    {
      var b := backends[i];
      assert backends[..i + 1][..i] == backends[..i];
      searched := searched + [b];
      match search(b) {
        case Ok(results) => all := all + results;
        case Err(_) =>
      }
      i := i + 1;
    }
    assert backends[..i] == backends;
    var ranked := new PackageResult[|all|](k requires 0 <= k < |all| => all[k]);
    assert ranked[..] == all;
    RankResults(query, ranked);
    outcome := Ranked(ranked[..]);
  }

  /** Merging distributes over concatenation of the backend list. */
  lemma {:induction false} MergeAppend(a: seq<BackendKind>, b: seq<BackendKind>, search: BackendKind -> Result<seq<PackageResult>>)
    ensures Merge(a + b, search) == Merge(a, search) + Merge(b, search)
    decreases |b|
  {
    if b == [] {
      assert a + b == a;
    } else {
      var init := b[..|b| - 1];
      MergeAppend(a, init, search);
      assert (a + b)[..|a + b| - 1] == a + init;
    }
  }

  /** A backend whose search fails adds nothing, and the backends after it are still searched. */
  lemma MergeSkipsFailure(before: seq<BackendKind>, b: BackendKind, after: seq<BackendKind>,
                          search: BackendKind -> Result<seq<PackageResult>>)
    requires search(b).Err?
    ensures Merge(before + [b] + after, search) == Merge(before, search) + Merge(after, search)
  {
    MergeAppend(before + [b], after, search);
    assert (before + [b])[..|before|] == before;
  }


  /** When every search succeeds, the merge is all of their records, backend by backend. */
  lemma {:induction false} MergeAllSucceed(backends: seq<BackendKind>, search: BackendKind -> Result<seq<PackageResult>>)
    requires forall b :: b in backends ==> search(b).Ok?
    ensures Merge(backends, search) == Concatenated(backends, search)
    decreases |backends|
  {
    if backends != [] {
      var first, rest := [backends[0]], backends[1..];
      assert first + rest == backends;
      MergeAppend(first, rest, search);
      assert first[..0] == [];
      assert forall b :: b in rest ==> b in backends;
      MergeAllSucceed(rest, search);
    }
  }

  /** The shown records are the merged ones, each rescored for the query, sorted by score. */
  lemma SearchShowsRankedMerge(query: string, merged: seq<PackageResult>)
    ensures Sorted(SortByScore(ScoreAll(query, merged)))
    ensures multiset(SortByScore(ScoreAll(query, merged))) == multiset(ScoreAll(query, merged))
  {
    SortByScoreIsSorted(ScoreAll(query, merged));
    SortByScoreIsPermutation(ScoreAll(query, merged));
  }

  // --------------------------------------------------------------- install

  /** `find(|b| b.name() == name)`: the first backend with that name. */
  function FindByName(backends: seq<BackendKind>, name: string): (r: Option<BackendKind>)
    ensures r.Some? ==> r.value in backends && Name(r.value) == name
    ensures r.None? <==> forall b :: b in backends ==> Name(b) != name
    ensures r.Some? ==>
      exists i :: 0 <= i < |backends| && backends[i] == r.value && forall j :: 0 <= j < i ==> Name(backends[j]) != name
  {
    if backends == [] then None
    else if Name(backends[0]) == name then Some(backends[0])
    else
      var r := FindByName(backends[1..], name);
      assert forall b :: b in backends[1..] ==> b in backends;
      if r.Some? then
        var i :| 0 <= i < |backends[1..]| && backends[1..][i] == r.value && forall j :: 0 <= j < i ==> Name(backends[1..][j]) != name;
        assert backends[i + 1] == r.value;
        r
      else r
  }

  /** What the environment answers during `install_package`. */
  datatype InstallEnv = InstallEnv(
    ctx: OsContext,
    usePipx: bool,
    available: BackendKind -> bool,
    install: BackendKind -> Result<()>,
    loadedBehavior: Option<Settings.BehaviorConfig>,
    windows: bool,
    lookup: CommandOutput,
    shimFile: Result<string>,
    registryLoads: bool,
    registrySaves: bool)

  /**
   * The backend to install with: the first available backend with the
   * given name, or else the platform's default backend.
   */
  function ResolveBackend(backendName: Option<string>, env: InstallEnv): (r: Result<BackendKind>)
    ensures backendName.Some? ==>
      (r.Ok? <==> exists b :: b in AvailableBackends(env.usePipx, env.available) && Name(b) == backendName.value)
    ensures backendName.Some? && r.Ok? ==>
      Name(r.value) == backendName.value && r.value in AvailableBackends(env.usePipx, env.available)
    ensures backendName.None? ==> r == BackendForContext(env.ctx, env.available(Apt))
  {
    match backendName
    case Some(name) =>
      (match FindByName(AvailableBackends(env.usePipx, env.available), name)
       case None => Err("Backend '" + name + "' not available")
       case Some(b) => Ok(b))
    case None => BackendForContext(env.ctx, env.available(Apt))
  }

  /** A backend chosen by name was found among the available ones, so it passes the availability check. */
  lemma NamedBackendIsAvailable(name: string, env: InstallEnv)
    requires ResolveBackend(Some(name), env).Ok?
    ensures env.available(ResolveBackend(Some(name), env).value)
  {
    AvailableBackendsExact(env.usePipx, env.available);
  }

  /** The behaviour settings in force: the loaded ones, or the defaults when loading failed. */
  function Behavior(env: InstallEnv): (b: Settings.BehaviorConfig)
    ensures env.loadedBehavior.None? ==> b.createShims
  {
    match env.loadedBehavior
    case Some(b) => b
    case None => Settings.DefaultBehavior()
  }

  /**
   * The installed binary's path: `which` prints it (trimmed) on Unix;
   * `where` prints one path per line on Windows and the first line is
   * taken. A lookup that fails finds nothing; one that cannot be started
   * is an error.
   */
  function LocateBinary(windows: bool, o: CommandOutput): (r: Result<Option<string>>)
    ensures r.Err? <==> o.LaunchFailed?
    ensures r.Ok? && r.value.Some? ==> o.success
    ensures r.Ok? && r.value.Some? && !windows ==> r.value.value == Trim(o.stdout)
    ensures r.Ok? && r.value.Some? && windows ==> Lines(o.stdout) != [] && r.value.value == Lines(o.stdout)[0]
    ensures o.Exited? && o.success && !windows ==> r.Ok? && r.value.Some?
  {
    match o
    case LaunchFailed => Err("command could not be started")
    case Exited(success, stdout, _) =>
      if !success then Ok(None)
      else if windows then
        var ls := Lines(stdout);
        Ok(if ls == [] then None else Some(ls[0]))
      else Ok(Some(Trim(stdout)))
  }

  /** Whether `try_create_shim` ends by registering the shim, and for which target. */
  predicate ShimRegistered(env: InstallEnv, target: string) {
    LocateBinary(env.windows, env.lookup) == Ok(Some(target)) &&
    env.shimFile.Ok? && env.registryLoads && env.registrySaves
  }

  /**
   * `try_create_shim`: the binary is named like the package; once it is
   * found and its shim file is created, the registry gains (or replaces)
   * the entry for it. The registry object stands for the saved registry
   * file, so it changes only when the save succeeds.
   */
  method TryCreateShim(package: string, backendName: string, env: InstallEnv, reg: ShimRegistry, createdAt: int)
    returns (r: Result<Option<string>>)
    requires reg.Valid()
    modifies reg
    ensures reg.Valid()
    ensures (exists t :: ShimRegistered(env, t)) <==> r.Ok? && r.value.Some?
    ensures forall t :: ShimRegistered(env, t) ==>
      r == Ok(Some(env.shimFile.value)) &&
      reg.shims == old(reg.shims)[package := ShimEntry(package, t, backendName, createdAt)]
    ensures (forall t :: !ShimRegistered(env, t)) ==> reg.shims == old(reg.shims)
    ensures LocateBinary(env.windows, env.lookup) == Ok(None) ==> r == Ok(None)
  {
    var located := LocateBinary(env.windows, env.lookup);
    if located.Err? {
      return Err(located.error);
    }
    if located.value.None? {
      return Ok(None);
    }
    var target := located.value.value;
    if env.shimFile.Err? {
      return Err(env.shimFile.error);
    }
    if !env.registryLoads {
      return Err("could not load the shim registry");
    }
    if !env.registrySaves {
      return Err("could not save the shim registry");
    }
    assert ShimRegistered(env, target);
    reg.Add(package, target, backendName, createdAt);
    r := Ok(Some(env.shimFile.value));
  }

  /**
   * `install_package`: resolve the backend, check that it is available,
   * install, then, when shims are enabled, try to create one; `invoked`
   * is the backend whose install was called. A shim that cannot be
   * created never turns a successful install into an error.
   */
  method InstallPackage(package: string, backendName: Option<string>, env: InstallEnv, reg: ShimRegistry, createdAt: int)
    returns (r: Result<()>, invoked: Option<BackendKind>)
    requires reg.Valid()
    modifies reg
    ensures reg.Valid()
    ensures invoked.Some? <==> ResolveBackend(backendName, env).Ok? && env.available(ResolveBackend(backendName, env).value)
    ensures invoked.Some? ==> invoked.value == ResolveBackend(backendName, env).value
    ensures r.Ok? <==> invoked.Some? && env.install(invoked.value).Ok?
    ensures !(r.Ok? && Behavior(env).createShims) ==> reg.shims == old(reg.shims)
    ensures forall t :: r.Ok? && Behavior(env).createShims && ShimRegistered(env, t) ==>
      reg.shims == old(reg.shims)[package := ShimEntry(package, t, Name(invoked.value), createdAt)]
    ensures (forall t :: !ShimRegistered(env, t)) ==> reg.shims == old(reg.shims)
  {
    var resolved := ResolveBackend(backendName, env);
    if resolved.Err? {
      return Err(resolved.error), None;
    }
    var backend := resolved.value;
    if !env.available(backend) {
      return Err("Backend '" + Name(backend) + "' is not available on this system"), None;
    }
    invoked := Some(backend);
    var installed := env.install(backend);
    if installed.Err? {
      return Err(installed.error), invoked;
    }
    var behavior := Behavior(env);
    if behavior.createShims {
      var shim := TryCreateShim(package, Name(backend), env, reg, createdAt);
    }
    r := Ok(());
  }
}
