/**
 * Operating-system detection on Linux: reading `/etc/os-release` and
 * classifying the distribution family. The file's content is an input
 * (`None` when it cannot be read).
 */
module Os {
  import opened Wrappers
  import opened Text

  datatype LinuxDistro = Debian | Arch | Fedora | Unknown

  datatype OsType = Windows | Linux(distro: LinuxDistro) | MacOS | Unknown

  datatype OsContext = OsContext(osType: OsType, osName: Option<string>, osVersion: Option<string>)

  /**
   * One line of os-release as the loop reads it: split at the first '=',
   * with every leading and trailing '"' removed from the value.
   */
  function Entry(line: string): (r: Option<(string, string)>)
    ensures r.Some? <==> '=' in line
    ensures r.Some? ==> '=' !in r.value.0
  {
    ContainsChar(line, '=');
    match SplitOnce(line, "=")
    case None => None
    case Some((key, value)) =>
      ContainsChar(key, '=');
      Some((key, TrimMatches(value, IsQuote)))
  }

  /** The value the line gives `key`, if it sets `key`. */
  function ValueFor(line: string, key: string): Option<string> {
    match Entry(line)
    case Some((k, v)) => if k == key then Some(v) else None
    case None => None
  }

  /** The last `Some` that `f` gives over the lines. */
  function LastSome<T>(lines: seq<string>, f: string -> Option<T>): Option<T>
    decreases |lines|
  {
    if lines == [] then None
    else if f(lines[|lines| - 1]).Some? then f(lines[|lines| - 1])
    else LastSome(lines[..|lines| - 1], f)
  }

  /** The value the last line with key `key` gives, if any line has that key. */
  function LastValue(lines: seq<string>, key: string): Option<string> {
    LastSome(lines, line => ValueFor(line, key))
  }

  /** Nothing exactly when `f` gives nothing on every line. */
  lemma {:induction false} LastSomeNone<T>(lines: seq<string>, f: string -> Option<T>)
    ensures LastSome(lines, f).None? <==> forall i :: 0 <= i < |lines| ==> f(lines[i]).None?
    decreases |lines|
  {
    if lines != [] {
      var n := |lines| - 1;
      LastSomeNone(lines[..n], f);
      assert forall i :: 0 <= i < n ==> lines[..n][i] == lines[i];
    }
  }

  /** A result comes from some line, and `f` gives nothing on every later line. */
  lemma {:induction false} LastSomeIsLast<T>(lines: seq<string>, f: string -> Option<T>)
    requires LastSome(lines, f).Some?
    ensures exists i ::
      && 0 <= i < |lines|
      && f(lines[i]) == LastSome(lines, f)
      && (forall j :: i < j < |lines| ==> f(lines[j]).None?)
    decreases |lines|
  {
    var n := |lines| - 1;
    if f(lines[n]).None? {
      var init := lines[..n];
      LastSomeIsLast(init, f);
      var i :| 0 <= i < n && f(init[i]) == LastSome(init, f) && (forall j :: i < j < n ==> f(init[j]).None?);
      assert f(lines[i]) == LastSome(lines, f);
      assert forall j :: i < j < n ==> init[j] == lines[j];
    }
  }

  /**
   * A key's value is that of its last line: no line sets the key exactly
   * when there is no value, and otherwise some line sets it to the value
   * and no later line sets it.
   */
  lemma LastValueIsLastLine(lines: seq<string>, key: string)
    ensures LastValue(lines, key).None? <==> forall i :: 0 <= i < |lines| ==> ValueFor(lines[i], key).None?
    ensures LastValue(lines, key).Some? ==>
      exists i ::
        && 0 <= i < |lines|
        && ValueFor(lines[i], key) == LastValue(lines, key)
        && (forall j :: i < j < |lines| ==> ValueFor(lines[j], key).None?)
  {
    var f := line => ValueFor(line, key);
    LastSomeNone(lines, f);
    if LastValue(lines, key).Some? {
      LastSomeIsLast(lines, f);
    }
  }

  /** `to_lowercase` under an `Option`. */
  function LowerOpt(o: Option<string>): Option<string> {
    match o
    case None => None
    case Some(v) => Some(Lower(v))
  }

  predicate IsDebianId(id: string) { id == "debian" || id == "ubuntu" || id == "linuxmint" || id == "pop" }
  predicate IsArchId(id: string) { id == "arch" || id == "manjaro" || id == "endeavouros" }
  predicate IsFedoraId(id: string) { id == "fedora" || id == "rhel" || id == "centos" || id == "rocky" }

  /** The family `ID_LIKE` names, matched by substring: Debian, then Arch, then Fedora. */
  function ClassifyLike(like: Option<string>): (r: LinuxDistro)
    ensures r == LinuxDistro.Unknown <==>
      like.None? || !(Contains(like.value, "debian") || Contains(like.value, "ubuntu") || Contains(like.value, "arch")
                      || Contains(like.value, "fedora") || Contains(like.value, "rhel"))
  {
    match like
    case Some(l) =>
      if Contains(l, "debian") || Contains(l, "ubuntu") then Debian
      else if Contains(l, "arch") then Arch
      else if Contains(l, "fedora") || Contains(l, "rhel") then Fedora
      else LinuxDistro.Unknown
    case None => LinuxDistro.Unknown
  }

  /**
   * The distribution family: a recognised `ID` decides; otherwise `ID_LIKE`.
   * The family is Unknown exactly when neither names one.
   */
  function Classify(id: Option<string>, like: Option<string>): (r: LinuxDistro)
    ensures r == LinuxDistro.Unknown <==>
      (id.None? || !(IsDebianId(id.value) || IsArchId(id.value) || IsFedoraId(id.value))) &&
      (like.None? || !(Contains(like.value, "debian") || Contains(like.value, "ubuntu") || Contains(like.value, "arch")
                       || Contains(like.value, "fedora") || Contains(like.value, "rhel")))
  {
    if id.Some? && IsDebianId(id.value) then Debian
    else if id.Some? && IsArchId(id.value) then Arch
    else if id.Some? && IsFedoraId(id.value) then Fedora
    else ClassifyLike(like)
  }

  /** The four variables `parse_os_release` keeps while reading the lines. */
  datatype Release = Release(id: Option<string>, idLike: Option<string>, name: Option<string>, version: Option<string>)

  /** What reading `lines` leaves in the four variables: each key's last value, `ID` and `ID_LIKE` lowercased. */
  function ReleaseOf(lines: seq<string>): (r: Release)
    ensures r.id.None? <==> forall i :: 0 <= i < |lines| ==> ValueFor(lines[i], "ID").None?
    ensures r.idLike.None? <==> forall i :: 0 <= i < |lines| ==> ValueFor(lines[i], "ID_LIKE").None?
    ensures r.name.None? <==> forall i :: 0 <= i < |lines| ==> ValueFor(lines[i], "NAME").None?
    ensures r.version.None? <==> forall i :: 0 <= i < |lines| ==> ValueFor(lines[i], "VERSION_ID").None?
  {
    LastValueIsLastLine(lines, "ID");
    LastValueIsLastLine(lines, "ID_LIKE");
    LastValueIsLastLine(lines, "NAME");
    LastValueIsLastLine(lines, "VERSION_ID");
    Release(LowerOpt(LastValue(lines, "ID")), LowerOpt(LastValue(lines, "ID_LIKE")),
            LastValue(lines, "NAME"), LastValue(lines, "VERSION_ID"))
  }

  /** The line at `i` updates only the variable of its own key. */
  lemma ReleaseStep(lines: seq<string>, i: nat)
    requires i < |lines|
    ensures var e := Entry(lines[i]); var before := ReleaseOf(lines[..i]);
      ReleaseOf(lines[..i + 1]) ==
        if e.None? then before
        else if e.value.0 == "ID" then before.(id := Some(Lower(e.value.1)))
        else if e.value.0 == "ID_LIKE" then before.(idLike := Some(Lower(e.value.1)))
        else if e.value.0 == "NAME" then before.(name := Some(e.value.1))
        else if e.value.0 == "VERSION_ID" then before.(version := Some(e.value.1))
        else before
  {
    assert lines[..i + 1][..i] == lines[..i];
    assert lines[..i + 1][i] == lines[i];
  }

  /**
   * `parse_os_release`: the family, `NAME` and `VERSION_ID`; an unreadable
   * file gives an unknown family and neither value.
   */
  method ParseOsRelease(content: Option<string>) returns (distro: LinuxDistro, name: Option<string>, version: Option<string>)
    ensures content.None? ==> distro == LinuxDistro.Unknown && name == None && version == None
    ensures content.Some? ==>
      var r := ReleaseOf(Lines(content.value));
      distro == Classify(r.id, r.idLike) && name == r.name && version == r.version
  {
    if content.None? {
      return LinuxDistro.Unknown, None, None;
    }
    var lines := Lines(content.value);
    var id: Option<string> := None;
    var idLike: Option<string> := None;
    name, version := None, None;
    var i := 0;
    while i < |lines|
      invariant i <= |lines|
      invariant Release(id, idLike, name, version) == ReleaseOf(lines[..i])
    {
      ReleaseStep(lines, i);
      var e := Entry(lines[i]);
      if e.Some? {
        var (key, value) := e.value;
        if key == "ID" {
          id := Some(Lower(value));
        } else if key == "ID_LIKE" {
          idLike := Some(Lower(value));
        } else if key == "NAME" {
          name := Some(value);
        } else if key == "VERSION_ID" {
          version := Some(value);
        }
      }
      i := i + 1;
    }
    assert lines[..i] == lines;
    distro := Classify(id, idLike);
  }

  /** `detect_linux`: a Linux context carrying the parsed family, name and version. */
  method DetectLinux(content: Option<string>) returns (ctx: OsContext)
    ensures content.None? ==> ctx == OsContext(Linux(LinuxDistro.Unknown), None, None)
    ensures content.Some? ==>
      var r := ReleaseOf(Lines(content.value));
      ctx == OsContext(Linux(Classify(r.id, r.idLike)), r.name, r.version)
  {
    var distro, name, version := ParseOsRelease(content);
    ctx := OsContext(Linux(distro), name, version);
  }

  // ------------------------------------------------------------------ properties

  /** No identifier belongs to two families. */
  lemma IdFamiliesDisjoint(id: string)
    ensures !(IsDebianId(id) && IsArchId(id))
    ensures !(IsDebianId(id) && IsFedoraId(id))
    ensures !(IsArchId(id) && IsFedoraId(id))
  {
    assert IsDebianId(id) ==> id[0] in "dulp";
    assert IsArchId(id) ==> id[0] in "ame";
    assert IsFedoraId(id) ==> id[0] in "frc";
  }

  /** A recognised `ID` decides the family whatever `ID_LIKE` says. */
  lemma RecognisedIdIgnoresLike(id: string, like1: Option<string>, like2: Option<string>)
    requires IsDebianId(id) || IsArchId(id) || IsFedoraId(id)
    ensures Classify(Some(id), like1) == Classify(Some(id), like2) != LinuxDistro.Unknown
    ensures IsDebianId(id) <==> Classify(Some(id), like1) == Debian
    ensures IsArchId(id) <==> Classify(Some(id), like1) == Arch
    ensures IsFedoraId(id) <==> Classify(Some(id), like1) == Fedora
  {
    IdFamiliesDisjoint(id);
  }

  /** Only an unrecognised or absent `ID` consults `ID_LIKE`. */
  lemma UnrecognisedIdUsesLike(id: Option<string>, like: Option<string>)
    requires id.None? || !(IsDebianId(id.value) || IsArchId(id.value) || IsFedoraId(id.value))
    ensures Classify(id, like) == ClassifyLike(like)
  {
  }


  /** A line `key=value` sets `key` to `value` without its surrounding quotes. */
  lemma EntryOfKeyValue(key: string, value: string)
    requires '=' !in key
    ensures Entry(key + "=" + value) == Some((key, TrimMatches(value, IsQuote)))
    ensures ValueFor(key + "=" + value, key) == Some(TrimMatches(value, IsQuote))
  {
    var line := key + "=" + value;
    assert line[|key|] == '=';
    ContainsChar(line, '=');
    var (k, v) := SplitOnce(line, "=").value;
    SplitAtFirst(key, value, k, v);
  }

  /** A later line with the same key overrides every earlier one. */
  lemma LaterLineWins(lines: seq<string>, line: string, key: string)
    requires ValueFor(line, key).Some?
    ensures LastValue(lines + [line], key) == ValueFor(line, key)
  {
    var all := lines + [line];
    assert all[|all| - 1] == line;
  }

  /** Splitting `key=value` at its first '=' gives `key` back when `key` holds no '='. */
  lemma SplitAtFirst(key: string, value: string, k: string, v: string)
    requires '=' !in key
    requires SplitOnce(key + "=" + value, "=") == Some((k, v))
    ensures k == key && v == value
  {
    var line := key + "=" + value;
    assert line == k + "=" + v;
    ContainsChar(k, '=');
    assert line[|key|] == '=' && line[|k|] == '=';
    assert forall i :: 0 <= i < |k| ==> k[i] == line[i];
    assert forall i :: 0 <= i < |key| ==> key[i] == line[i];
    assert |k| == |key|;
    assert k == line[..|k|] == key;
    assert v == line[|k| + 1..] == value;
  }
}
