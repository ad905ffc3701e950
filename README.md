# 1install: a Dafny model of its search, configuration, shim and parser core

1install is a command-line front end over several package managers (apt, winget,
Homebrew, npm, pip/pipx, Flatpak, DNF, pacman, Cargo, Snap, git sources and Go).
It asks each available package manager to search, merges and ranks what they
report, installs through the chosen or default package manager, and records a
shim for the installed binary in a registry. This project models that core in
Dafny and proves properties of the model:

- `Aggregator` (Aggregator.dfy): the `PackageResult` record, its equality and
  ordering, the additive score (`calculate_score`), in-place ranking
  (`rank_results`: scoring loop plus a stable in-place insertion sort on an
  array) and `deduplicate` (sort, then drop records named like their predecessor).
- `Registry` (Registry.dfy): the shim registry as a class whose `shims` map is
  updated in place by `add` and `remove`, with `get`, `list`, `len` and `is_empty`.
- `Settings` (Settings.dfy): the defaults, the dot-key `get`/`set`/`list_keys`
  interface, and a `Config` class whose `Set` changes one field in place.
- `Os` (Os.dfy): `/etc/os-release` parsing (a loop over lines) and the
  classification of the distribution family.
- `Backends` (Backends.dfy): backend names, the platform default backend, the
  filter of available backends, and the way a command's exit status and output
  become a result.
- `Orchestration` (Orchestration.dfy): the `search_packages` merge loop, the
  backend resolution of `install_package`, and `try_create_shim`'s registry update.
- One module per package-manager adapter (Apt.dfy, Npm.dfy, Pip.dfy, Brew.dfy,
  Winget.dfy, Flatpak.dfy, Dnf.dfy, Pacman.dfy, Cargo.dfy, Snap.dfy, Git.dfy,
  Go.dfy): the parsers that turn a tool's standard output into records, and the
  small string and sequencing rules of the git and Go adapters.
- `Text` (Text.dfy) and `Wrappers` (Wrappers.dfy) are shared helpers. `Text`
  gives explicit sequence definitions of the Rust string operations the parsers
  use (`lines`, `trim`, `split`, `splitn`, `split_whitespace`, `contains`,
  `to_lowercase` over ASCII) with the lemmas about them. `Wrappers` holds `Option`
  and `Result`.

Processes, files, the clock and the environment are inputs. A command's outcome
is a `CommandOutput` value: either it could not be started, or it exited with a
success flag and its standard output. Backend availability, search and install
results, directory operations and file existence are functions passed in. The
creation time of a shim is a parameter. Scores are integers: every increment in
the source is a whole number. Where the source's loops update variables or
arrays, the model uses methods with loops proved against a specification
function; iterator chains become functions.

## Model

| member | source | states |
|---|---|---|
| Aggregator.New | src/search/aggregator.rs:22-30 | the given name and source, no version, no description, score 0 |
| Aggregator.WithVersion | src/search/aggregator.rs:33-36 | the same package, ranked equal, with the version set and nothing else changed |
| Aggregator.WithDescription | src/search/aggregator.rs:39-42 | the same package, ranked equal, with the description set and nothing else changed |
| Aggregator.WithScore | src/search/aggregator.rs:45-48 | the same package with the score set and nothing else changed; ranked equal iff the score is unchanged |
| Aggregator.SamePackageIsEquivalence | src/search/aggregator.rs:51-57 | `==` on results (same name and source) is reflexive, symmetric and transitive |
| Aggregator.CmpIsOrder | src/search/aggregator.rs:65-70 | `cmp` puts the higher score first, is antisymmetric and transitive |
| Aggregator.BuildersSetOneField | src/search/aggregator.rs:22-48 | `new` followed by `with_version`, `with_description` and `with_score` gives a record holding exactly the given name, source, version, description and score |
| Aggregator.EqualityAndOrderDisagree | src/search/aggregator.rs:51-70 | two records differing only in score are equal under `eq` yet ordered by `cmp`: equality is by (name, source), order is by score, highest first |
| Aggregator.NameBonus | src/search/aggregator.rs:82-96 | the name component is one of 0, 50, 75, 100 |
| Aggregator.NameBonusMeaning | src/search/aggregator.rs:82-96 | 100 iff the lowercased name equals the lowercased query; 75 iff not equal but a prefix; 50 iff not a prefix but a substring; 0 iff not a substring |
| Aggregator.PriorityBonus | src/search/aggregator.rs:99-102 | the backend bonus over a priority list lies between 0 and 5 times the list length |
| Aggregator.PriorityBonusIsPosition | src/search/aggregator.rs:99-102 | the bonus is (length − position of the first occurrence) · 5, and 0 when the source is absent |
| Aggregator.PriorityBonusAt | src/search/aggregator.rs:99-102 | an entry that appears at index i and nowhere before gets (length − i) · 5 |
| Aggregator.PriorityBonusAbsent | src/search/aggregator.rs:99-102 | a source not in the list gets no bonus |
| Aggregator.BackendBonus | src/search/aggregator.rs:99-102 | the bonus with the fixed priority list lies in 0..30 |
| Aggregator.PriorityHasNoDuplicates | src/search/aggregator.rs:73 | the six backend names of the priority list are pairwise distinct |
| Aggregator.BackendBonusMeaning | src/search/aggregator.rs:99-102 | a listed source at index i gets (6 − i) · 5; an unlisted one gets 0 |
| Aggregator.BackendBonusOfListed | src/search/aggregator.rs:73 | apt 30, winget 25, brew 20, snap 15, npm 10, pip 5 |
| Aggregator.Score | src/search/aggregator.rs:80-115 | every score lies in 0..137 |
| Aggregator.CalculateScore | src/search/aggregator.rs:80-115 | the step-by-step accumulation equals the specified score, written into the score field with every other field unchanged |
| Aggregator.ScoreIgnoresOldScore | src/search/aggregator.rs:80-115 | the score does not depend on the old score, so scoring twice equals scoring once |
| Aggregator.ScoreOfSource | src/search/aggregator.rs:99-102 | changing only the source changes the score by exactly the difference of backend bonuses |
| Aggregator.EarlierBackendOutranks | src/search/aggregator.rs:151-161 | otherwise identical records from backends i < j differ by (j − i) · 5, e.g. apt outscores npm by 20 |
| Aggregator.PresenceBonuses | src/search/aggregator.rs:105-112 | a version adds exactly 5 and a description exactly 2 |
| Aggregator.StrongerMatchScoresHigher | src/search/aggregator.rs:85-96 | for otherwise identical records, exact > prefix > substring > no match |
| Aggregator.ScoreAll | src/search/aggregator.rs:120-122 | scoring every record keeps the length and sets each record's score, nothing else |
| Aggregator.InsertByScore | src/search/aggregator.rs:125 | inserting one record into a sorted prefix adds exactly one element |
| Aggregator.SortByScore | src/search/aggregator.rs:125 | the specification of the stable descending sort keeps the length |
| Aggregator.InsertIsPermutation | src/search/aggregator.rs:125 | insertion adds exactly the inserted record to the multiset |
| Aggregator.InsertKeepsSorted | src/search/aggregator.rs:125 | inserting into a non-increasing sequence keeps it non-increasing |
| Aggregator.InsertKeepsTiers | src/search/aggregator.rs:125 | insertion goes after every record of equal score (stability) |
| Aggregator.SortByScoreIsSorted | src/search/aggregator.rs:124-125 | the sort's output is in non-increasing score order |
| Aggregator.SortByScoreIsPermutation | src/search/aggregator.rs:125 | the sort's output is a permutation of its input |
| Aggregator.SortByScoreIsStable | src/search/aggregator.rs:125 | records of equal score keep their input order |
| Aggregator.InsertAt | src/search/aggregator.rs:125 | insertion places the record after the last record scoring at least as much |
| Aggregator.InsertIntoPrefix | src/search/aggregator.rs:125 | one pass of the in-place sort inserts a[i] into the sorted prefix and leaves the rest of the array alone |
| Aggregator.ShiftedIsInsert | src/search/aggregator.rs:125 | the shifted array equals the specified insertion |
| Aggregator.SortInPlace | src/search/aggregator.rs:125 | the in-place array sort produces exactly the stable sort of the old contents |
| Aggregator.ScoreInPlace | src/search/aggregator.rs:120-122 | the scoring loop over the array leaves exactly the scored records |
| Aggregator.RankResults | src/search/aggregator.rs:118-126 | the array ends up as the stable descending sort of its scored contents |
| Aggregator.SortMiddleHighest | src/search/aggregator.rs:164-174 | of three records, a strictly higher middle one moves first and the equal outer two keep their order |
| Aggregator.ExactMatchRanksFirst | src/search/aggregator.rs:164-174 | ranking [prefix match, exact match, prefix match] from one backend puts the exact match first |
| Aggregator.ExactMatchScoresHighest | src/search/aggregator.rs:140-149 | an exact match outscores two prefix matches that score alike |
| Aggregator.ScoreAllThree | src/search/aggregator.rs:120-122 | scoring a three-record list scores each record in place |
| Aggregator.DedupByName | src/search/aggregator.rs:131 | `dedup_by` keeps the first record and the last run's name, and never grows the list |
| Aggregator.DedupStep | src/search/aggregator.rs:131 | one more record is dropped iff its name equals its predecessor's |
| Aggregator.DedupInPlace | src/search/aggregator.rs:131 | the in-place compaction loop leaves exactly the deduplicated prefix and returns its length |
| Aggregator.Deduplicate | src/search/aggregator.rs:129-132 | `deduplicate` leaves the deduplicated stable sort of the old contents |
| Aggregator.DedupNoAdjacentNames | src/search/aggregator.rs:131 | no two adjacent output records share a name |
| Aggregator.DedupIsSubsequence | src/search/aggregator.rs:131 | the output is a subsequence of the input |
| Aggregator.SubsequenceMembers | src/search/aggregator.rs:131 | every element of a subsequence is in the original |
| Aggregator.SubsequenceKeepsSorted | src/search/aggregator.rs:130-131 | a subsequence of a sorted list is sorted |
| Aggregator.DedupKeepsRunHeads | src/search/aggregator.rs:131 | the first record of every run of equal names survives |
| Aggregator.DedupKeepsOnlyRunHeads | src/search/aggregator.rs:131 | every surviving record is the first of its run |
| Aggregator.DeduplicateIsRankedSubsequence | src/search/aggregator.rs:128-132 | the deduplicated output is a subsequence of the ranked input and is itself ranked |
| Aggregator.DeduplicateKeepsSeparatedDuplicates | src/search/aggregator.rs:128-132 | as written, two records named "a" separated by a "b" both survive |
| Aggregator.SortDescendingThree | src/search/aggregator.rs:125 | three records already strictly descending stay in place |
| Aggregator.DedupThreeDistinctNeighbours | src/search/aggregator.rs:131 | three records whose neighbours differ in name all survive |
| Aggregator.KeepFirstByName | src/search/aggregator.rs:128 | keeping the first record of each name never grows the list |
| Aggregator.KeepFirstOrigin | src/search/aggregator.rs:128 | each kept record is the first of its name in the input |
| Aggregator.KeepFirstDistinct | src/search/aggregator.rs:128 | kept names are pairwise distinct |
| Aggregator.KeepFirstCovers | src/search/aggregator.rs:128 | every input name is kept |
| Aggregator.KeepFirstIsHighest | src/search/aggregator.rs:128 | on a ranked list, the kept record of each name scores at least as high as any record of that name |
| Aggregator.SortByScoreSameMembers | src/search/aggregator.rs:125 | sorting keeps exactly the same members |
| Aggregator.DedupCorrectedCovers | src/search/aggregator.rs:128 | the corrected deduplication keeps every name of the input |
| Aggregator.DedupCorrectedFromInput | src/search/aggregator.rs:128 | the corrected deduplication only keeps input records |
| Aggregator.DedupCorrectedHighest | src/search/aggregator.rs:128 | the corrected deduplication keeps, per name, a highest-scored record |
| Aggregator.DeduplicateCorrected | src/search/aggregator.rs:128-132 | one record per name, every name present, taken from the input, and highest-scored for its name |
| Registry.RemoveUndoesAdd | src/shims/registry.rs:66-79 | adding a new name and then removing it restores the map |
| Registry.RemoveAbsent | src/shims/registry.rs:78 | removing an absent name changes nothing |
| Registry.ListStep | src/shims/registry.rs:87-89 | listing one more key keeps each entry listed once |
| Registry.ListedAll | src/shims/registry.rs:87-94 | once all keys are listed, the list has `len` entries, each stored under its name, covering every key, with distinct names |
| Registry.ShimRegistry.constructor | src/shims/registry.rs:23-26 | the default registry is empty and satisfies the invariant that every entry's name is its key |
| Registry.ShimRegistry.Add | src/shims/registry.rs:66-74 | upsert: `get(name)` returns the new entry with name, target, installer and time; other names unchanged; `len` grows by one iff the name was new |
| Registry.ShimRegistry.Remove | src/shims/registry.rs:77-79 | returns the entry previously stored (None if absent); afterwards `get(name)` is None, other names unchanged, and an absent name changes nothing |
| Registry.ShimRegistry.Get | src/shims/registry.rs:82-84 | Some iff the name is a key, and the entry carries that name |
| Registry.ShimRegistry.IsEmpty | src/shims/registry.rs:97-99 | empty iff `len() == 0`, and iff `get` finds no name |
| Registry.ShimRegistry.Len | src/shims/registry.rs:92-94 | the number of distinct names stored |
| Registry.EmptyIffNoNames | src/shims/registry.rs:97-99 | a map is empty exactly when no name is a key |
| Registry.ShimRegistry.List | src/shims/registry.rs:87-89 | exactly `len()` entries, one per key, each the entry stored under its name |
| Settings.FindKey | src/config/settings.rs:156-165 | the key found has the given name and is listed; no key means no listed key has that name |
| Settings.KeyNameInjective | src/config/settings.rs:209-220 | distinct keys have distinct dotted names |
| Settings.ParseKey | src/config/settings.rs:155-167 | a string selects a key only if it is that key's dotted name, and every key's name selects it |
| Settings.Field | src/config/settings.rs:155-167 | every key reads a value except `telemetry.client_id` while it is unset |
| Settings.KeyName | src/config/settings.rs:156-165 | every key is written as one of the four section names, a dot, then the field |
| Settings.DefaultConfig | src/config/settings.rs:68-107 | every setting but the client id has a default value; six backends in the priority list, none disabled, telemetry off |
| Settings.ParseKeyName | src/config/settings.rs:156-165 | every key's dotted name is recognised as that key |
| Settings.ListKeys | src/config/settings.rs:209-220 | eight key names, one per key |
| Settings.KnownIffListed | src/config/settings.rs:209-220 | a name is recognised by `get`/`set` iff `list_keys` lists it |
| Settings.ParseBool | src/config/settings.rs:181 | only the exact strings "true" and "false" parse, and each prints back as itself |
| Settings.ParseBoolString | src/config/settings.rs:180-199 | printing a boolean and parsing it gives it back |
| Settings.DefaultsRead | src/config/settings.rs:50-107 | defaults read back: priority "apt,winget,brew,snap,npm,pip", disabled "", verbose false, auto_confirm true, create_shims true, auto_refresh true, telemetry disabled, no client id |
| Settings.DefaultPriorityRead | src/config/settings.rs:93-107 | the default priority list and the empty disabled list read back as comma-joined text |
| Settings.JoinedTail | src/config/settings.rs:96-103 | the tail of the default priority list joins to "winget,brew,snap,npm,pip" |
| Settings.Lookup | src/config/settings.rs:155-167 | `get` answers iff the key is listed, except `telemetry.client_id` while it is unset |
| Settings.SetFlagThenGet | src/config/settings.rs:180-199 | setting a boolean key to "true"/"false" succeeds and `get` returns the same string |
| Settings.SetFlagInvalid | src/config/settings.rs:180-199 | any other value for a boolean key fails with "Invalid boolean" |
| Settings.SetListThenGet | src/config/settings.rs:172-178 | setting a list key stores the trimmed ','-pieces, and `get` returns them re-joined with ',' |
| Settings.ParseList | src/config/settings.rs:172-178 | the stored list has one element per ','-piece, each the piece trimmed |
| Settings.SetClientId | src/config/settings.rs:200-203 | the client id is stored verbatim as Some(value) and read back |
| Settings.SetUnknownKey | src/config/settings.rs:204 | an unknown key fails with "Unknown config key: <key>" |
| Settings.SetChangesOnlyItsKey | src/config/settings.rs:170-206 | a successful `set` changes no other key's value |
| Settings.Assign | src/config/settings.rs:170-206 | `set` fails iff the key is unknown, or is boolean and the value is neither "true" nor "false" |
| Settings.Update | src/config/settings.rs:172-203 | for a known key, `set` fails iff it is boolean and the value is not "true"/"false" |
| Settings.Config.Default | src/config/settings.rs:68-77 | the default configuration object holds the default values |
| Settings.Config.Get | src/config/settings.rs:155-167 | a value is returned only for a listed key |
| Settings.Config.Set | src/config/settings.rs:170-206 | on success the object holds the updated configuration; on error it is unchanged and the error is returned |
| Os.Entry | src/context/os.rs:121-122 | a line gives an entry iff it contains '='; the key holds no '=' |
| Os.LastSomeNone | src/context/os.rs:120-131 | no value iff no line gives one |
| Os.LastSomeIsLast | src/context/os.rs:120-131 | the value comes from the last line that gives one |
| Os.LastValueIsLastLine | src/context/os.rs:120-131 | a repeated key takes its last occurrence; absent iff no line sets it |
| Os.ReleaseStep | src/context/os.rs:121-129 | one line updates exactly the variable its key names (ID and ID_LIKE lowercased, NAME and VERSION_ID verbatim) and ignores any other line |
| Os.ParseOsRelease | src/context/os.rs:107-150 | an unreadable file gives (Unknown, None, None); otherwise the family of the last ID/ID_LIKE and the last NAME and VERSION_ID |
| Os.DetectLinux | src/context/os.rs:96-104 | a Linux context carrying the parsed family, name and version |
| Os.IdFamiliesDisjoint | src/context/os.rs:135-137 | no ID belongs to two families |
| Os.RecognisedIdIgnoresLike | src/context/os.rs:134-137 | a recognised ID fixes the family whatever ID_LIKE says |
| Os.UnrecognisedIdUsesLike | src/context/os.rs:138-146 | an unrecognised or missing ID defers to ID_LIKE |
| Os.ClassifyLike | src/context/os.rs:138-146 | Unknown iff there is no ID_LIKE or it contains none of debian, ubuntu, arch, fedora, rhel |
| Os.ReleaseOf | src/context/os.rs:120-131 | each of ID, ID_LIKE, NAME and VERSION_ID is unset iff no line of the file gives that key |
| Os.Classify | src/context/os.rs:134-146 | the family is Unknown iff neither the ID nor the ID_LIKE substrings match |
| Os.EntryOfKeyValue | src/context/os.rs:121-122 | `KEY=value` gives the key and the value with surrounding '"' removed |
| Os.LaterLineWins | src/context/os.rs:120-131 | a later line setting a key overrides earlier ones |
| Os.SplitAtFirst | src/context/os.rs:121 | the split is at the first '=' |
| Backends.NamesDistinct | src/backends/mod.rs:22 | two backends have the same name iff they are the same backend |
| Backends.Registered | src/backends/mod.rs:69-82 | five backends are registered, pairwise distinct |
| Backends.PipName | src/backends/pip.rs:52-54 | the pip backend is named "pipx" iff it uses pipx, else "pip" |
| Backends.RunCommandOutput | src/backends/mod.rs:110-121 | a command's output is returned iff it started and exited successfully |
| Backends.OutputIgnoringStatus | src/backends/flatpak.rs:31-36 | output is returned whenever the command started, whatever its exit status |
| Backends.RunStatus | src/backends/cargo.rs:68-76 | Ok iff the command started and exited successfully; a failed exit gives the adapter's failure message |
| Backends.BackendForContext | src/backends/mod.rs:35-66 | winget iff Windows; brew iff macOS; apt iff Debian, or unknown Linux with apt available; an error otherwise (Arch, Fedora, unknown Linux without apt, unknown OS) |
| Backends.Filter | src/backends/mod.rs:78-81 | the filter keeps exactly the elements satisfying the predicate |
| Backends.FilterAppend | src/backends/mod.rs:78-81 | filtering distributes over concatenation, so order is kept |
| Backends.AvailableBackends | src/backends/mod.rs:69-82 | at most five backends: a backend is listed iff it is registered and available |
| Backends.AvailableBackendsExact | src/backends/mod.rs:69-82 | a backend is listed iff it is registered (winget, apt, brew, npm, pip) and available; when all are available the list is the registered order, when none is it is empty |
| Backends.FilterKeepsAll | src/backends/mod.rs:78-81 | when every element passes, the filter changes nothing |
| Orchestration.SearchPackages | src/lib.rs:40-73 | with no backend, returns without searching; otherwise searches each available backend once in order and ranks the in-order merge of the successful results |
| Orchestration.MergeAppend | src/lib.rs:58-67 | merging distributes over concatenation of the backend list |
| Orchestration.MergeSkipsFailure | src/lib.rs:63-65 | a failing backend contributes nothing and does not stop later backends |
| Orchestration.Merge | src/lib.rs:58-67 | every merged record comes from a backend whose search succeeded |
| Orchestration.MergeAllSucceed | src/lib.rs:58-67 | when every backend's search succeeds, the merge is the concatenation of their results in backend order |
| Orchestration.SearchShowsRankedMerge | src/lib.rs:69 | the rendered list is sorted by score and is a permutation of the scored merge |
| Orchestration.FindByName | src/lib.rs:80-83 | the first backend with the given name, or None iff there is none |
| Orchestration.ResolveBackend | src/lib.rs:79-88 | with a name: Ok iff an available backend has it, and it is that backend; without: the platform default |
| Orchestration.NamedBackendIsAvailable | src/lib.rs:79-97 | a backend chosen by name always passes the availability check |
| Orchestration.Behavior | src/lib.rs:104 | a configuration that fails to load falls back to the defaults, which create shims |
| Orchestration.LocateBinary | src/lib.rs:123-143 | a lookup that cannot start is an error; a failed one finds nothing; on Unix the trimmed output, on Windows the first line |
| Orchestration.TryCreateShim | src/lib.rs:119-158 | the registry gains (package, target, backend) exactly when the binary was found, the shim file was made and the registry loaded and saved; otherwise it is unchanged |
| Orchestration.InstallPackage | src/lib.rs:76-116 | `install` runs iff a backend resolves and is available; the result is Ok iff it succeeds; the registry changes only after a successful install with create_shims on, and shim failure never fails the call |
| AptBackend.AptLine | src/backends/apt.rs:18-31 | a record iff the line contains " - "; source "apt", a description, no version, score 0 |
| AptBackend.Search | src/backends/apt.rs:51-54 | Ok iff the command succeeded, with the parsed output |
| AptBackend.AptName | src/backends/apt.rs:43-45 | the name is "apt" |
| AptBackend.ParseSearchOutput | src/backends/apt.rs:16-33 | one record per line containing " - " |
| AptBackend.AptRecords | src/backends/apt.rs:16-33 | every record comes from such a line and has source "apt", a description, no version, score 0 |
| AptBackend.AptLineSplitsAtFirst | src/backends/apt.rs:20-26 | the split is at the first " - ": the description may contain " - "; both halves trimmed |
| AptBackend.AptTwoLines | src/backends/apt.rs:151-159 | two "name - description" lines give their two records in order |
| NpmBackend.NpmLine | src/backends/npm.rs:22-40 | every non-blank line gives a record with source "npm" and score 0 |
| NpmBackend.NpmKept | src/backends/npm.rs:21-40 | a record iff the line is not blank |
| NpmBackend.Search | src/backends/npm.rs:60-64 | Ok iff the command succeeded, with the parsed output |
| NpmBackend.NpmName | src/backends/npm.rs:52-54 | the name is "npm" |
| NpmBackend.NpmSkipsHeader | src/backends/npm.rs:19-20 | the first line is skipped whatever it holds |
| NpmBackend.ParseSearchOutput | src/backends/npm.rs:19-41 | one record per non-blank line after the first |
| NpmBackend.NpmRecords | src/backends/npm.rs:19-41 | each record comes from a non-blank line after the first, with source "npm" and score 0 |
| NpmBackend.NpmRow | src/backends/npm.rs:23-34 | a row of three or more '\|' fields gives name field 0 and description field 1 trimmed, and version field 4 trimmed when present |
| NpmBackend.RowFields | src/backends/npm.rs:23-34 | the row parser reads the fields the line was joined from |
| NpmBackend.KeptIsLine | src/backends/npm.rs:21 | the blank-line filter passes every other line unchanged |
| NpmBackend.JoinedNotBlank | src/backends/npm.rs:21 | a line holding a '\|' is not blank |
| NpmBackend.NpmWordLine | src/backends/npm.rs:35-39 | a line with fewer than three fields gives its first word as the name, with nothing else |
| PipBackend.PipLine | src/backends/pip.rs:24-40 | a record iff the line is not blank; source "pip", no description, score 0 |
| PipBackend.Search | src/backends/pip.rs:60-71 | never an error: the parsed output on success, else one record named after the query with source "pip" |
| PipBackend.ParseSearchOutput | src/backends/pip.rs:23-41 | one record per non-blank line |
| PipBackend.PipWords | src/backends/pip.rs:27-35 | name is word 0 and version word 1 (if any), each stripped of surrounding '(' and ')' |
| PipBackend.PipRecordsSayPip | src/backends/pip.rs:21-42 | records say "pip" even when the backend is named "pipx" |
| BrewBackend.BrewLine | src/backends/brew.rs:18-22 | a record iff the line is not blank and does not start with "==>"; the name is the trimmed line |
| BrewBackend.Search | src/backends/brew.rs:42-45 | Ok iff the command succeeded, with the parsed output |
| BrewBackend.BrewName | src/backends/brew.rs:34-36 | the name is "brew" |
| BrewBackend.ParseSearchOutput | src/backends/brew.rs:17-23 | one record per kept line |
| BrewBackend.BrewRecords | src/backends/brew.rs:17-23 | each record is a kept line trimmed, with source "brew", no version or description, score 0 |
| BrewBackend.BrewEveryLine | src/backends/brew.rs:17-23 | when every line is kept, the records are the trimmed lines in order |
| WingetBackend.WingetLine | src/backends/winget.rs:36-49 | a record has source "winget", a description and score 0 |
| WingetBackend.WingetLineKeeps | src/backends/winget.rs:31-37 | a line gives a record iff it has at least two words |
| WingetBackend.ParseSearchOutput | src/backends/winget.rs:16-54 | the loop produces the records of the lines after the header and separator |
| WingetBackend.ParseRows | src/backends/winget.rs:30-51 | the row loop produces exactly the records of the body lines, in order |
| WingetBackend.ParseRow | src/backends/winget.rs:31-49 | one iteration of the row loop gives the line's record |
| WingetBackend.Search | src/backends/winget.rs:72-75 | Ok iff the command succeeded, with the parsed output |
| WingetBackend.WingetName | src/backends/winget.rs:64-66 | the name is "winget" |
| WingetBackend.HeaderIndex | src/backends/winget.rs:21-24 | the index of the first line naming both "Name" and "Id"; none iff no line does |
| WingetBackend.WingetRecords | src/backends/winget.rs:21-30 | no line with both "Name" and "Id" gives no records; records only come from lines at least two past the header |
| WingetBackend.WingetSkipsToBody | src/backends/winget.rs:21-30 | lines before the first header, the header and the separator give nothing; the body is parsed |
| WingetBackend.WingetCount | src/backends/winget.rs:26-51 | one record per body line with at least two words |
| WingetBackend.WingetRecordsAt | src/backends/winget.rs:26-30 | the records are those of the lines from two past the header |
| WingetBackend.WingetBodyCount | src/backends/winget.rs:31-50 | one record per line with at least two words |
| WingetBackend.WingetKeepsTwoWordLines | src/backends/winget.rs:37 | each body line is kept iff it has at least two words |
| WingetBackend.WingetWords | src/backends/winget.rs:38-49 | name word 0, description "ID: " + word 1, version word 2 when present |
| FlatpakBackend.FlatpakLineAsWritten | src/backends/flatpak.rs:39-59 | as written, a line stops the search with an out-of-range index iff it has exactly three tab fields |
| FlatpakBackend.ThreeTabFieldsPanic | src/backends/flatpak.rs:39-47 | a row of exactly three tab fields indexes field 3, which does not exist |
| FlatpakBackend.FlatpakLine | src/backends/flatpak.rs:39-59 | a record iff three or more tab fields or three or more words; source "flatpak", a description, score 0 |
| FlatpakBackend.CorrectedAgreesElsewhere | src/backends/flatpak.rs:39-59 | the corrected parser agrees with the code as written on every line where it does not stop |
| FlatpakBackend.Search | src/backends/flatpak.rs:30-63 | Ok whenever the command started, whatever its exit status, with the records of the lines in order (corrected line parser) |
| FlatpakBackend.ParseLines | src/backends/flatpak.rs:38-60 | the loop produces the records of the lines in order (corrected line parser) |
| FlatpakBackend.ParseLine | src/backends/flatpak.rs:39-59 | one iteration gives the line's record (corrected line parser) |
| FlatpakBackend.FlatpakName | src/backends/flatpak.rs:22-24 | the name is "flatpak" |
| FlatpakBackend.FlatpakTabRow | src/backends/flatpak.rs:40-47 | tab fields give name field 0 and description field 1 trimmed, and version field 3 trimmed only when a fourth field exists |
| FlatpakBackend.FlatpakWordRow | src/backends/flatpak.rs:49-57 | words give name word 0, description word 1, and version word 3 only when there are more than three |
| FlatpakBackend.FlatpakRecords | src/backends/flatpak.rs:38-60 | every record comes from a line of the accepted forms, with source "flatpak" and a description |
| DnfBackend.DnfLine | src/backends/dnf.rs:39-52 | a record iff the line contains " : "; the name holds no '.'; source "dnf", a description |
| DnfBackend.Search | src/backends/dnf.rs:30-56 | Ok whenever the command started, whatever its exit status, with the records of the lines in order |
| DnfBackend.ParseLines | src/backends/dnf.rs:38-53 | the loop produces the records of the lines in order |
| DnfBackend.ParseLine | src/backends/dnf.rs:39-52 | one iteration gives the line's record |
| DnfBackend.DnfVersion | src/backends/dnf.rs:47 | the version is always "latest" |
| DnfBackend.DnfCount | src/backends/dnf.rs:38-53 | one record per line containing " : " |
| DnfBackend.DnfRecords | src/backends/dnf.rs:38-53 | each record comes from such a line, with version "latest", a description and source "dnf" |
| DnfBackend.DnfRow | src/backends/dnf.rs:40-43 | `name.arch : summary` gives the name before the first '.' and the trimmed summary |
| PacmanBackend.Step | src/backends/pacman.rs:41-59 | a line appends at most one record, only when it is indented and a package was pending, and then clears the pending package |
| PacmanBackend.Run | src/backends/pacman.rs:38-60 | at most one record per indented line; every record has a version, a description, source "pacman" and score 0 |
| PacmanBackend.Search | src/backends/pacman.rs:30-63 | Ok whenever the command started, whatever its exit status, with the records of the state machine |
| PacmanBackend.ParseLines | src/backends/pacman.rs:38-60 | the loop with its pending package yields the state machine's records |
| PacmanBackend.Install | src/backends/pacman.rs:65-77 | Ok iff `sudo pacman -S --noconfirm <package>` exits successfully |
| PacmanBackend.Update | src/backends/pacman.rs:79-81 | `update` runs the same command as `install`, with the same outcome |
| PacmanBackend.PacmanPair | src/backends/pacman.rs:41-58 | `repo/name version ...` then an indented line gives one record: name after the last '/', the version, and the trimmed description |
| PacmanBackend.LeadingTrim | src/backends/pacman.rs:46 | the leading indentation does not change the trimmed description |
| PacmanBackend.OrphanDescription | src/backends/pacman.rs:41-42 | an indented line with no pending package changes nothing |
| PacmanBackend.HeaderReplacesPending | src/backends/pacman.rs:52-58 | a package line replaces any pending package and emits nothing |
| CargoBackend.CargoLine | src/backends/cargo.rs:39-58 | a record iff the line contains ` = "`; version and description always present; source "cargo" |
| CargoBackend.Search | src/backends/cargo.rs:30-63 | Ok whenever the command started, whatever its exit status, with the records of the lines in order |
| CargoBackend.ParseLines | src/backends/cargo.rs:38-60 | the loop produces the records of the lines in order |
| CargoBackend.ParseLine | src/backends/cargo.rs:39-59 | one iteration gives the line's record |
| CargoBackend.Install | src/backends/cargo.rs:65-77 | Ok iff `cargo install <package>` exits successfully |
| CargoBackend.Update | src/backends/cargo.rs:79-81 | `update` runs the same command as `install`, with the same outcome |
| CargoBackend.CargoCount | src/backends/cargo.rs:38-60 | one record per line containing ` = "` |
| CargoBackend.CargoRecords | src/backends/cargo.rs:38-60 | each record comes from such a line and has a version, a description and source "cargo" |
| CargoBackend.SecondPiece | src/backends/cargo.rs:40-43 | the segment after the first ` = "` is the second piece |
| CargoBackend.CargoRow | src/backends/cargo.rs:40-58 | `name = "version" # desc` gives the trimmed name, the version as written and the trimmed description |
| CargoBackend.VersionPieces | src/backends/cargo.rs:44-47 | the segment splits at `" # ` into version and description |
| CargoBackend.CargoRowWithoutComment | src/backends/cargo.rs:46-50 | without `" # ` the description is "" |
| CargoBackend.NoComment | src/backends/cargo.rs:44 | text without '"' is one piece |
| SnapBackend.SnapLine | src/backends/snap.rs:42-51 | a record iff the line has at least five words; version and description present; source "snap" |
| SnapBackend.Search | src/backends/snap.rs:30-55 | Ok whenever the command started, whatever its exit status, with the records after the header |
| SnapBackend.ParseLines | src/backends/snap.rs:41-52 | the loop produces the records of the lines in order |
| SnapBackend.SnapSkipsHeader | src/backends/snap.rs:38-39 | the first line is skipped |
| SnapBackend.ParseSearchOutput | src/backends/snap.rs:38-52 | one record per line after the first with at least five words |
| SnapBackend.SnapRecords | src/backends/snap.rs:38-52 | each record comes from such a line, with a version, a description, source "snap" and score 0 |
| SnapBackend.SnapRow | src/backends/snap.rs:42-50 | name word 0, version word 1, description words 4.. joined by single spaces |
| GitBackend.WorkDir | src/backends/git.rs:111-113 | the work directory lies directly inside "1install-git" and does not end in ".git" |
| GitBackend.RepoUrlForms | src/backends/git.rs:107-109 | http(s) and `git@` addresses are accepted as repository URLs; a word starting with neither 'h' nor 'g' is not |
| GitBackend.WorkDirName | src/backends/git.rs:111-113 | the work-directory leaf holds no '/' and does not end in ".git" |
| GitBackend.LastPieceHasNoSeparator | src/backends/git.rs:112 | the text after the last '/' holds no '/' |
| GitBackend.SplitPiecesFree | src/backends/git.rs:112 | no split piece holds the separator |
| GitBackend.UpToClone | src/backends/git.rs:115-125 | the clone is the first command run; the directory actions come before it |
| GitBackend.DetectBuildSystem | src/backends/git.rs:18-30 | Cargo.toml first, then Makefile or makefile, then package.json, else none |
| GitBackend.BuildAndInstall | src/backends/git.rs:18-82 | success needs a build system; only commands are run; `make install` runs only right after a successful `make` |
| GitBackend.Install | src/backends/git.rs:106-137 | a non-URL fails before any action; success iff the directory steps, the clone and the build all succeed |
| GitBackend.Update | src/backends/git.rs:139-142 | `update` is `install`: a non-URL fails at once, and success includes the clone |
| GitBackend.Search | src/backends/git.rs:100-104 | always Ok with no records |
| GitBackend.Uninstall | src/backends/git.rs:144-149 | always an error |
| GitBackend.InstallActions | src/backends/git.rs:115-137 | past the clone, the actions are the preparation and clone, then the build's, then the cleanup on success |
| GitBackend.InstallBeforeBuild | src/backends/git.rs:106-129 | when a step before the build fails, no command other than the clone runs |
| GitBackend.InstallSucceededCloned | src/backends/git.rs:122-131 | a successful install has cloned the repository |
| GitBackend.InstallActionsAt | src/backends/git.rs:115-137 | position by position: the actions up to the clone, the build's, then the cleanup |
| GitBackend.InstallBeforeBuildAt | src/backends/git.rs:106-129 | position by position: before the build, the only command is the clone |
| GitBackend.BuildOnlyAfterClone | src/backends/git.rs:127-131 | a build command runs only after a successful clone |
| GitBackend.MakeInstallAfterMake | src/backends/git.rs:53-59 | `make install` runs only right after a successful `make` |
| GitBackend.WorkDirOfRepo | src/backends/git.rs:111-113 | `.../name.git` and `.../name` both give the work directory `name` |
| GitBackend.GitName | src/backends/git.rs:92-94 | the name is "git" |
| GoBackend.InstallTarget | src/backends/go.rs:37-41 | the target always holds '@', begins with the package, and is the package unchanged iff it already holds '@' |
| GoBackend.InstallTargetIdempotent | src/backends/go.rs:37-41 | computing the target twice changes nothing |
| GoBackend.InstallTargetLatest | src/backends/go.rs:40 | a package without '@' gets "@latest" appended |
| GoBackend.Install | src/backends/go.rs:36-54 | Ok iff `go install <target>` exits successfully |
| GoBackend.Update | src/backends/go.rs:56-59 | `update` runs the same command as `install`, with the same outcome |
| GoBackend.Search | src/backends/go.rs:30-34 | always Ok with no records |
| GoBackend.Uninstall | src/backends/go.rs:61-63 | always an error |
| GoBackend.GoName | src/backends/go.rs:22-24 | the name is "go" |

## Left out

- Process execution is not modelled: `command_exists`, spawning commands, `is_root` and the `sudo` choice. Exit statuses, standard output and availability are inputs.
- The install, update and uninstall commands of apt, npm, pip, brew, winget, flatpak, dnf and snap are left out. Each is one command whose exit status becomes the result, the same shape as `CargoBackend.Install`.
- File I/O is not modelled: TOML load and save of the configuration and of the registry, shim script writing, and temporary-directory paths. Loading and saving are modelled only through their success flags.
- `Orchestration.TryCreateShim` treats the registry object as the saved registry file. The copy the source loads, changes in memory and then fails to save is not modelled separately.
- Error messages that embed an exit code (`{:?}` of `status.code()`) or the command's standard error are left out. The model says only that such a result is an error.
- Printing, the CLI parser, table rendering, `doctor`, telemetry, hashing, the Python launcher and `main` are left out.
- Unicode: strings are sequences of characters. `to_lowercase` is ASCII only, and `trim`/`split_whitespace` use ASCII whitespace.
- Floating-point scores are integers, since every increment is whole and the largest sum is 137.
- The stable `slice::sort` is modelled by a stable insertion sort. Any stable sort gives the same output.
- `Orchestration.SearchPackages`: the printed warning for a failing backend and the `limit` argument, which only affects rendering, are left out.
- `AptBackend.AptTwoLines` states the test's two-line sample for any space-free names, not for the literal strings.
- FlatpakBackend.Search, FlatpakBackend.ParseLines, FlatpakBackend.ParseLine, FlatpakBackend.FlatpakTabRow: these follow the corrected line parser `FlatpakLine`. On a line of exactly three tab fields the source panics (see Findings); the model reads no version there and goes on. The panic itself is stated by `FlatpakBackend.FlatpakLineAsWritten` and `FlatpakBackend.ThreeTabFieldsPanic`.
- `Orchestration.LocateBinary`: the Windows `where` case with empty output returns None; the conversion to a `PathBuf` is left out.

## Findings

| source | as written | input that shows it | evidently intended | confidence | as-written member | corrected member |
|---|---|---|---|---|---|---|
| src/search/aggregator.rs:128-132 | `dedup_by` removes only consecutive records with the same name | records a (score 3), b (score 2), a (score 1): the two "a" records stay apart after the sort, so both survive | keep only the highest-scored record of each name, as the doc comment says | high that the code behaves so; medium that it is unintended; not executed | Aggregator.DeduplicateKeepsSeparatedDuplicates | Aggregator.DeduplicateCorrected |
| src/backends/flatpak.rs:39-47 | a line with three or more tab fields reads `parts[3]` as the version | a line of exactly three tab-separated fields, e.g. "name\tdescription\tapp.id": index 3 is out of range and the search panics | read the version only when a fourth field exists | high; not executed | FlatpakBackend.ThreeTabFieldsPanic | FlatpakBackend.FlatpakLine |
