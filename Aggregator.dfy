/**
 * Federated search results: the record every backend produces, the additive
 * scoring rule, ranking (score every record, then a stable sort, highest score
 * first) and name-based deduplication.
 *
 * Scores are `f32` in the source, but every increment is a whole number, so
 * they are integers here.
 */
module Aggregator {
  import opened Wrappers
  import opened Text

  /** A search result from one package manager. */
  datatype PackageResult = PackageResult(
    name: string,
    version: Option<string>,
    description: Option<string>,
    source: string,
    score: int)

  /** `PackageResult::new`: no version, no description, score 0. */
  function New(name: string, source: string): (r: PackageResult)
    ensures r.name == name && r.source == source
    ensures r.version.None? && r.description.None? && r.score == 0
  {
    PackageResult(name, None, None, source, 0)
  }

  /** `with_version`: the same package, now with a version; nothing else changes. */
  function WithVersion(p: PackageResult, version: string): (r: PackageResult)
    ensures SamePackage(r, p) && Cmp(r, p) == Equal
    ensures r.version == Some(version) && r.(version := p.version) == p
  {
    p.(version := Some(version))
  }

  /** `with_description`: the same package, now with a description; nothing else changes. */
  function WithDescription(p: PackageResult, description: string): (r: PackageResult)
    ensures SamePackage(r, p) && Cmp(r, p) == Equal
    ensures r.description == Some(description) && r.(description := p.description) == p
  {
    p.(description := Some(description))
  }

  /** `with_score`: the same package, ranked by the new score; nothing else changes. */
  function WithScore(p: PackageResult, score: int): (r: PackageResult)
    ensures SamePackage(r, p) && (Cmp(r, p) == Equal <==> score == p.score)
    ensures r.score == score && r.(score := p.score) == p
  {
    p.(score := score)
  }

  /** The builders set their own field and leave every other field as it was. */
  lemma BuildersSetOneField(name: string, source: string, v: string, d: string, k: int)
    ensures var r := WithScore(WithDescription(WithVersion(New(name, source), v), d), k);
      r.name == name && r.source == source && r.version == Some(v) && r.description == Some(d) && r.score == k
  {
  }

  /** `PartialEq`: two results are the same package when name and source agree. */
  predicate SamePackage(a: PackageResult, b: PackageResult) {
    a.name == b.name && a.source == b.source
  }

  /** `==` is an equivalence: reflexive, symmetric and transitive. */
  lemma SamePackageIsEquivalence(a: PackageResult, b: PackageResult, c: PackageResult)
    ensures SamePackage(a, a)
    ensures SamePackage(a, b) <==> SamePackage(b, a)
    ensures SamePackage(a, b) && SamePackage(b, c) ==> SamePackage(a, c)
  {
  }

  datatype Ordering = Less | Equal | Greater

  /** `Ord::cmp`: the higher score comes first, so the comparison is reversed. */
  function Cmp(a: PackageResult, b: PackageResult): Ordering {
    if b.score < a.score then Less
    else if a.score < b.score then Greater
    else Equal
  }

  /**
   * `cmp` is a total order on scores, highest first: `Less` exactly when the
   * first score is higher, the reverse comparison is the mirror image, and
   * `Less` is transitive.
   */
  lemma CmpIsOrder(a: PackageResult, b: PackageResult, c: PackageResult)
    ensures Cmp(a, b) == Less <==> b.score < a.score
    ensures Cmp(a, b) == Equal <==> a.score == b.score
    ensures Cmp(a, b) == Less <==> Cmp(b, a) == Greater
    ensures Cmp(a, b) == Equal <==> Cmp(b, a) == Equal
    ensures Cmp(a, b) == Less && Cmp(b, c) == Less ==> Cmp(a, c) == Less
  {
  }

  /**
   * The order ignores identity and identity ignores the score: the same package
   * found with two scores is `==` to itself yet not `Equal` under `cmp`.
   */
  lemma EqualityAndOrderDisagree(r: PackageResult)
    ensures SamePackage(r, r.(score := r.score + 1))
    ensures Cmp(r, r.(score := r.score + 1)) == Greater
    ensures Cmp(r.(score := r.score + 1), r) == Less
  {
  }

  // ------------------------------------------------------------------ scoring

  /** Backends in decreasing order of preference. */
  const BackendPriority: seq<string> := ["apt", "winget", "brew", "snap", "npm", "pip"]

  /**
   * The name component: case-insensitive equality, else prefix, else
   * substring, else nothing.
   */
  function NameBonus(query: string, name: string): (b: int)
    ensures b == 0 || b == 50 || b == 75 || b == 100
  {
    var q, n := Lower(query), Lower(name);
    if n == q then 100
    else if StartsWith(n, q) then 75
    else if Contains(n, q) then 50
    else 0
  }

  /** Each bonus is given exactly when its kind of match holds and no stronger one does. */
  lemma NameBonusMeaning(query: string, name: string)
    ensures var b, q, n := NameBonus(query, name), Lower(query), Lower(name);
      && (b == 100 <==> n == q)
      && (b == 75 <==> n != q && StartsWith(n, q))
      && (b == 50 <==> !StartsWith(n, q) && Contains(n, q))
      && (b == 0 <==> !Contains(n, q))
  {
    var q, n := Lower(query), Lower(name);
    if StartsWith(n, q) {
      assert OccursAt(n, q, 0);
    }
  }

  /** Five points per entry from the first occurrence of `source` to the end of `list`. */
  function PriorityBonus(list: seq<string>, source: string): (b: int)
    ensures 0 <= b <= |list| * 5
    decreases |list|
  {
    if list == [] then 0
    else if list[0] == source then |list| * 5
    else PriorityBonus(list[1..], source)
  }

  /** The bonus is (length - position) * 5 for the first position of `source`, and 0 when it is absent. */
  lemma {:induction false} PriorityBonusIsPosition(list: seq<string>, source: string)
    ensures PriorityBonus(list, source) == match IndexOf(list, source)
      case Some(pos) => (|list| - pos) * 5
      case None => 0
    decreases |list|
  {
    if list != [] && list[0] != source {
      PriorityBonusIsPosition(list[1..], source);
    }
  }

  /** The backend component: (6 - position) * 5 for a listed backend, else 0. */
  function BackendBonus(source: string): (b: int)
    ensures 0 <= b <= 30
  {
    PriorityBonus(BackendPriority, source)
  }

  /** No backend is listed twice: the names already differ in their first letter. */
  lemma PriorityHasNoDuplicates()
    ensures forall i, j :: 0 <= i < j < |BackendPriority| ==> BackendPriority[i] != BackendPriority[j]
  {
    var initials := seq(|BackendPriority|, i requires 0 <= i < |BackendPriority| => BackendPriority[i][0]);
    assert initials == "awbsnp";
  }

  /** The bonus for the entry at `i` of a list whose earlier entries differ from it. */
  lemma {:induction false} PriorityBonusAt(list: seq<string>, i: nat)
    requires i < |list|
    requires forall k :: 0 <= k < i ==> list[k] != list[i]
    ensures PriorityBonus(list, list[i]) == (|list| - i) * 5
    decreases i
  {
    if i > 0 {
      PriorityBonusAt(list[1..], i - 1);
    }
  }

  /** An unlisted backend earns nothing. */
  lemma {:induction false} PriorityBonusAbsent(list: seq<string>, source: string)
    requires source !in list
    ensures PriorityBonus(list, source) == 0
    decreases |list|
  {
    if list != [] {
      assert source !in list[1..];
      PriorityBonusAbsent(list[1..], source);
    }
  }

  /** A listed backend earns five points per place below it in the list, plus five; any other earns nothing. */
  lemma BackendBonusMeaning(source: string)
    ensures forall i :: 0 <= i < |BackendPriority| && BackendPriority[i] == source ==>
      BackendBonus(source) == (|BackendPriority| - i) * 5
    ensures source !in BackendPriority ==> BackendBonus(source) == 0
  {
    PriorityHasNoDuplicates();
    forall i | 0 <= i < |BackendPriority| && BackendPriority[i] == source
      ensures BackendBonus(source) == (|BackendPriority| - i) * 5
    {
      PriorityBonusAt(BackendPriority, i);
    }
    if source !in BackendPriority {
      PriorityBonusAbsent(BackendPriority, source);
    }
  }

  /** The score `calculate_score` assigns: a sum of four independent components. */
  function Score(query: string, r: PackageResult): (s: int)
    ensures 0 <= s <= 137
  {
    NameBonus(query, r.name)
      + BackendBonus(r.source)
      + (if r.version.Some? then 5 else 0)
      + (if r.description.Some? then 2 else 0)
  }

  /**
   * `calculate_score`: accumulates the score step by step and overwrites the
   * record's score field; nothing else in the record changes.
   */
  method CalculateScore(query: string, result: PackageResult) returns (scored: PackageResult)
    ensures scored == result.(score := Score(query, result))
  {
    var score := 0;
    var queryLower := Lower(query);
    var nameLower := Lower(result.name);
    if nameLower == queryLower {
      score := score + 100;
    } else if StartsWith(nameLower, queryLower) {
      score := score + 75;
    } else if Contains(nameLower, queryLower) {
      score := score + 50;
    }
    assert score == NameBonus(query, result.name);
    PriorityBonusIsPosition(BackendPriority, result.source);
    match IndexOf(BackendPriority, result.source) {
      case Some(pos) => score := score + (|BackendPriority| - pos) * 5;
      case None =>
    }
    assert score == NameBonus(query, result.name) + BackendBonus(result.source);
    if result.version.Some? {
      score := score + 5;
    }
    if result.description.Some? {
      score := score + 2;
    }
    scored := result.(score := score);
  }

  /** The old score is never read, so scoring twice is scoring once. */
  lemma ScoreIgnoresOldScore(query: string, r: PackageResult, k: int)
    ensures Score(query, r.(score := k)) == Score(query, r)
    ensures var once := r.(score := Score(query, r)); once.(score := Score(query, once)) == once
  {
  }

  /** The score of a record moved to another backend changes only in its backend component. */
  lemma ScoreOfSource(query: string, r: PackageResult, source: string)
    ensures Score(query, r.(source := source)) == Score(query, r) - BackendBonus(r.source) + BackendBonus(source)
  {
  }

  /**
   * Moving a record to a backend `j - i` places further down the priority list
   * lowers its score by exactly five points per place (apt beats npm by 20).
   */
  lemma EarlierBackendOutranks(query: string, r: PackageResult, i: nat, j: nat)
    requires i < j < |BackendPriority| && r.source == BackendPriority[i]
    ensures Score(query, r) == Score(query, r.(source := BackendPriority[j])) + (j - i) * 5
  {
    BackendBonusMeaning(r.source);
    BackendBonusMeaning(BackendPriority[j]);
    ScoreOfSource(query, r, BackendPriority[j]);
  }

  /** The bonus of each listed backend, and of an unlisted one. */
  lemma BackendBonusOfListed()
    ensures BackendBonus("apt") == 30 && BackendBonus("winget") == 25 && BackendBonus("brew") == 20
    ensures BackendBonus("snap") == 15 && BackendBonus("npm") == 10 && BackendBonus("pip") == 5
  {
    BackendBonusMeaning("apt");
    BackendBonusMeaning("winget");
    BackendBonusMeaning("brew");
    BackendBonusMeaning("snap");
    BackendBonusMeaning("npm");
    BackendBonusMeaning("pip");
    assert BackendPriority[0] == "apt" && BackendPriority[1] == "winget" && BackendPriority[2] == "brew";
    assert BackendPriority[3] == "snap" && BackendPriority[4] == "npm" && BackendPriority[5] == "pip";
  }

  /** Version and description add exactly 5 and 2. */
  lemma PresenceBonuses(query: string, r: PackageResult, v: string, d: string)
    ensures Score(query, r.(version := Some(v))) == Score(query, r.(version := None)) + 5
    ensures Score(query, r.(description := Some(d))) == Score(query, r.(description := None)) + 2
  {
  }

  /** How strongly a name matches: 3 exact, 2 prefix, 1 substring, 0 none. */
  function MatchRank(query: string, name: string): nat {
    var q, n := Lower(query), Lower(name);
    if n == q then 3 else if StartsWith(n, q) then 2 else if Contains(n, q) then 1 else 0
  }

  /** For records that differ only in name, a stronger match always scores higher. */
  lemma StrongerMatchScoresHigher(query: string, r: PackageResult, a: string, b: string)
    requires MatchRank(query, a) > MatchRank(query, b)
    ensures Score(query, r.(name := a)) > Score(query, r.(name := b))
  {
    NameBonusMeaning(query, a);
    NameBonusMeaning(query, b);
    assert NameBonus(query, a) > NameBonus(query, b);
  }

  // ------------------------------------------------------------------ ranking

  /** Every record with its score computed for `query`. */
  function ScoreAll(query: string, s: seq<PackageResult>): (r: seq<PackageResult>)
    ensures |r| == |s|
    ensures forall i :: 0 <= i < |s| ==> r[i] == s[i].(score := Score(query, s[i]))
  {
    seq(|s|, i requires 0 <= i < |s| => s[i].(score := Score(query, s[i])))
  }

  /** No record compares `Greater` than a later one: scores never increase. */
  predicate Sorted(s: seq<PackageResult>) {
    forall i, j :: 0 <= i < j < |s| ==> Cmp(s[i], s[j]) != Greater
  }

  /**
   * Insert `x` after every record whose score is at least its own, which is
   * where a stable sort leaves the last record of its input.
   */
  function InsertByScore(x: PackageResult, s: seq<PackageResult>): (r: seq<PackageResult>)
    ensures |r| == |s| + 1
    decreases |s|
  {
    if s == [] then [x]
    else if s[|s| - 1].score >= x.score then s + [x]
    else InsertByScore(x, s[..|s| - 1]) + [s[|s| - 1]]
  }

  /** The result of a stable sort by `Cmp`, highest score first. */
  function SortByScore(s: seq<PackageResult>): (r: seq<PackageResult>)
    ensures |r| == |s|
    decreases |s|
  {
    if s == [] then [] else InsertByScore(s[|s| - 1], SortByScore(s[..|s| - 1]))
  }

  /** The records of `s` that have score `k`, in their order in `s`. */
  function Tier(s: seq<PackageResult>, k: int): seq<PackageResult>
    decreases |s|
  {
    if s == [] then []
    else Tier(s[..|s| - 1], k) + if s[|s| - 1].score == k then [s[|s| - 1]] else []
  }

  lemma {:induction false} InsertIsPermutation(x: PackageResult, s: seq<PackageResult>)
    ensures multiset(InsertByScore(x, s)) == multiset(s) + multiset{x}
    decreases |s|
  {
    if s != [] && s[|s| - 1].score < x.score {
      var init := s[..|s| - 1];
      InsertIsPermutation(x, init);
      assert s == init + [s[|s| - 1]];
    }
  }

  lemma {:induction false} InsertKeepsSorted(x: PackageResult, s: seq<PackageResult>)
    requires Sorted(s)
    ensures Sorted(InsertByScore(x, s))
    decreases |s|
  {
    if s != [] && s[|s| - 1].score < x.score {
      var init, last := s[..|s| - 1], s[|s| - 1];
      InsertKeepsSorted(x, init);
      var ins := InsertByScore(x, init);
      InsertIsPermutation(x, init);
      forall i | 0 <= i < |ins| ensures ins[i].score >= last.score {
        assert ins[i] in multiset(ins);
        if ins[i] != x {
          assert ins[i] in multiset(init);
          var j :| 0 <= j < |init| && init[j] == ins[i];
          assert Cmp(s[j], s[|s| - 1]) != Greater;
        }
      }
    }
  }

  lemma {:induction false} InsertKeepsTiers(x: PackageResult, s: seq<PackageResult>, k: int)
    ensures Tier(InsertByScore(x, s), k) == Tier(s, k) + if x.score == k then [x] else []
    decreases |s|
  {
    if s == [] {
    } else if s[|s| - 1].score >= x.score {
      assert (s + [x])[..|s|] == s;
    } else {
      var init, last := s[..|s| - 1], s[|s| - 1];
      InsertKeepsTiers(x, init, k);
      var ins := InsertByScore(x, init);
      assert (ins + [last])[..|ins|] == ins;
    }
  }

  /** The ranked order never puts a lower score before a higher one. */
  lemma {:induction false} SortByScoreIsSorted(s: seq<PackageResult>)
    ensures Sorted(SortByScore(s))
    decreases |s|
  {
    if s != [] {
      SortByScoreIsSorted(s[..|s| - 1]);
      InsertKeepsSorted(s[|s| - 1], SortByScore(s[..|s| - 1]));
    }
  }

  /** Ranking neither loses nor invents records. */
  lemma {:induction false} SortByScoreIsPermutation(s: seq<PackageResult>)
    ensures multiset(SortByScore(s)) == multiset(s)
    decreases |s|
  {
    if s != [] {
      var init := s[..|s| - 1];
      SortByScoreIsPermutation(init);
      InsertIsPermutation(s[|s| - 1], SortByScore(init));
      assert s == init + [s[|s| - 1]];
      assert multiset(s) == multiset(init) + multiset{s[|s| - 1]};
    }
  }

  /** Stability: records with equal scores keep their original relative order. */
  lemma {:induction false} SortByScoreIsStable(s: seq<PackageResult>, k: int)
    ensures Tier(SortByScore(s), k) == Tier(s, k)
    decreases |s|
  {
    if s != [] {
      SortByScoreIsStable(s[..|s| - 1], k);
      InsertKeepsTiers(s[|s| - 1], SortByScore(s[..|s| - 1]), k);
    }
  }

  /** Where the inner loop of the insertion sort stops, `x` lands exactly where `InsertByScore` puts it. */
  lemma {:induction false} InsertAt(x: PackageResult, s: seq<PackageResult>, j: nat)
    requires j <= |s|
    requires forall k :: j <= k < |s| ==> s[k].score < x.score
    requires j == 0 || s[j - 1].score >= x.score
    ensures InsertByScore(x, s) == s[..j] + [x] + s[j..]
    decreases |s| - j
  {
    if j < |s| {
      var init := s[..|s| - 1];
      InsertAt(x, init, j);
      assert init[..j] == s[..j];
      assert init[j..] + [s[|s| - 1]] == s[j..];
    } else if s != [] {
      assert s[..j] == s;
    }
  }

  /**
   * One step of the insertion sort: `a[i]` moves left past every record with a
   * lower score, so `a[..i + 1]` becomes the insertion of it into `a[..i]`.
   */
  method InsertIntoPrefix(a: array<PackageResult>, i: nat)
    requires i < a.Length
    modifies a
    ensures a[..i + 1] == InsertByScore(old(a[i]), old(a[..i]))
    ensures a[i + 1..] == old(a[i + 1..])
  {
    ghost var sorted := a[..i];
    var x := a[i];
    var j := i;
    while j > 0 && a[j - 1].score < x.score
      invariant 0 <= j <= i
      invariant forall k :: 0 <= k < j ==> a[k] == sorted[k]
      invariant forall k :: j < k <= i ==> a[k] == sorted[k - 1]
      invariant forall k :: j <= k < i ==> sorted[k].score < x.score
      invariant forall k :: i < k < a.Length ==> a[k] == old(a[k])
    {
      a[j] := a[j - 1];
      j := j - 1;
    }
    a[j] := x;
    ShiftedIsInsert(x, sorted, a[..i + 1], j);
  }

  /** The array contents the shifting loop leaves behind are the insertion of `x`. */
  lemma ShiftedIsInsert(x: PackageResult, before: seq<PackageResult>, after: seq<PackageResult>, j: nat)
    requires j <= |before| && |after| == |before| + 1
    requires forall k :: 0 <= k < j ==> after[k] == before[k]
    requires after[j] == x
    requires forall k :: j < k < |after| ==> after[k] == before[k - 1]
    requires forall k :: j <= k < |before| ==> before[k].score < x.score
    requires j == 0 || before[j - 1].score >= x.score
    ensures after == InsertByScore(x, before)
  {
    InsertAt(x, before, j);
    assert after == before[..j] + [x] + before[j..];
  }

  /** The slice sort: an in-place stable insertion sort by `Cmp`. */
  method SortInPlace(a: array<PackageResult>)
    modifies a
    ensures a[..] == SortByScore(old(a[..]))
  {
    ghost var orig := a[..];
    var i := 0;
    while i < a.Length
      invariant 0 <= i <= a.Length
      invariant a[..i] == SortByScore(orig[..i])
      invariant a[i..] == orig[i..]
    {
      assert orig[..i + 1][..i] == orig[..i] && orig[..i + 1][i] == orig[i] == a[i];
      assert SortByScore(orig[..i + 1]) == InsertByScore(a[i], a[..i]);
      assert orig[i + 1..] == a[i + 1..];
      InsertIntoPrefix(a, i);
      assert a[..i + 1] == SortByScore(orig[..i + 1]);
      assert a[i + 1..] == orig[i + 1..];
      i := i + 1;
    }
    assert orig[..a.Length] == orig;
  }

  /** The scoring loop of `rank_results`: every record gets its score for `query`. */
  method ScoreInPlace(query: string, results: array<PackageResult>)
    modifies results
    ensures results[..] == ScoreAll(query, old(results[..]))
  {
    ghost var target := ScoreAll(query, results[..]);
    var i := 0;
    while i < results.Length
      invariant 0 <= i <= results.Length
      invariant forall k :: 0 <= k < i ==> results[k] == target[k]
      invariant forall k :: i <= k < results.Length ==> results[k] == old(results[k])
    {
      var scored := CalculateScore(query, results[i]);
      results[i] := scored;
      i := i + 1;
    }
    assert results[..] == target;
  }

  /**
   * `rank_results`: score every record for the query, then sort the slice in
   * place, highest score first, keeping the arrival order of equal scores.
   */
  method RankResults(query: string, results: array<PackageResult>)
    modifies results
    ensures results[..] == SortByScore(ScoreAll(query, old(results[..])))
  {
    ScoreInPlace(query, results);
    SortInPlace(results);
  }

  /** Three records where the middle one scores highest and the others tie. */
  lemma SortMiddleHighest(a: PackageResult, b: PackageResult, c: PackageResult)
    requires a.score == c.score < b.score
    ensures SortByScore([a, b, c]) == [b, a, c]
  {
    assert [a, b, c][..2] == [a, b] && [a, b][..1] == [a] && [a][..0] == [];
    assert SortByScore([a]) == [a];
    assert InsertByScore(b, [a]) == InsertByScore(b, []) + [a];
    assert SortByScore([a, b]) == [b, a];
  }

  /**
   * Among three results from one backend with the same fields present, an
   * exact name match ranks first and two prefix matches keep their arrival
   * order behind it (`python` before `python-pip`, `python3` for "python").
   */
  lemma ExactMatchRanksFirst(query: string, a: PackageResult, b: PackageResult, c: PackageResult)
    requires a.source == b.source == c.source
    requires a.version.Some? == b.version.Some? == c.version.Some?
    requires a.description.Some? == b.description.Some? == c.description.Some?
    requires Lower(b.name) == Lower(query)
    requires Lower(a.name) != Lower(query) && StartsWith(Lower(a.name), Lower(query))
    requires Lower(c.name) != Lower(query) && StartsWith(Lower(c.name), Lower(query))
    ensures var s := ScoreAll(query, [a, b, c]); SortByScore(s) == [s[1], s[0], s[2]]
  {
    var x, y, z := a.(score := Score(query, a)), b.(score := Score(query, b)), c.(score := Score(query, c));
    ExactMatchScoresHighest(query, a, b, c);
    SortMiddleHighest(x, y, z);
    ScoreAllThree(query, a, b, c);
  }

  /** Scoring three records scores each in place. */
  lemma ScoreAllThree(query: string, a: PackageResult, b: PackageResult, c: PackageResult)
    ensures ScoreAll(query, [a, b, c]) ==
      [a.(score := Score(query, a)), b.(score := Score(query, b)), c.(score := Score(query, c))]
  {
    var s := ScoreAll(query, [a, b, c]);
    assert s[0] == a.(score := Score(query, a));
  }

  /** The exact match scores above the two prefix matches, which score alike. */
  lemma ExactMatchScoresHighest(query: string, a: PackageResult, b: PackageResult, c: PackageResult)
    requires a.source == b.source == c.source
    requires a.version.Some? == b.version.Some? == c.version.Some?
    requires a.description.Some? == b.description.Some? == c.description.Some?
    requires Lower(b.name) == Lower(query)
    requires Lower(a.name) != Lower(query) && StartsWith(Lower(a.name), Lower(query))
    requires Lower(c.name) != Lower(query) && StartsWith(Lower(c.name), Lower(query))
    ensures Score(query, a) == Score(query, c) < Score(query, b)
  {
    assert NameBonus(query, a.name) == 75 && NameBonus(query, b.name) == 100 && NameBonus(query, c.name) == 75;
  }

  // ------------------------------------------------------------------ deduplication

  /**
   * `dedup_by(|a, b| a.name == b.name)`: drop every record whose name equals
   * that of the record just before it, so each run keeps its first record.
   */
  function DedupByName(s: seq<PackageResult>): (r: seq<PackageResult>)
    ensures |r| <= |s|
    ensures s != [] ==> r != [] && r[0] == s[0] && r[|r| - 1].name == s[|s| - 1].name
    decreases |s|
  {
    if |s| <= 1 then s
    else DedupByName(s[..|s| - 1]) + if s[|s| - 1].name == s[|s| - 2].name then [] else [s[|s| - 1]]
  }

  /** Extending the input by one record extends the output by that record unless it repeats the previous name. */
  lemma DedupStep(s: seq<PackageResult>, r: nat)
    requires 1 <= r < |s|
    ensures s[r].name == s[r - 1].name ==> DedupByName(s[..r + 1]) == DedupByName(s[..r])
    ensures s[r].name != s[r - 1].name ==> DedupByName(s[..r + 1]) == DedupByName(s[..r]) + [s[r]]
  {
    var p := s[..r + 1];
    assert p[..r] == s[..r] && p[r] == s[r] && p[r - 1] == s[r - 1];
  }

  /** `dedup_by` on a vector: compact the kept records to the front, return the new length. */
  method DedupInPlace(a: array<PackageResult>) returns (len: nat)
    modifies a
    ensures len <= a.Length
    ensures a[..len] == DedupByName(old(a[..]))
  {
    if a.Length == 0 {
      return 0;
    }
    ghost var orig := a[..];
    var w, r := 1, 1;
    assert a[..1] == orig[..1];
    while r < a.Length
      invariant 1 <= w <= r <= a.Length
      invariant a[..w] == DedupByName(orig[..r])
      invariant a[w - 1].name == orig[r - 1].name
      invariant forall k :: r <= k < a.Length ==> a[k] == orig[k]
    {
      DedupStep(orig, r);
      ghost var kept := a[..w];
      if a[r].name != a[w - 1].name {
        a[w] := a[r];
        assert a[..w + 1] == kept + [orig[r]];
        w := w + 1;
      }
      r := r + 1;
    }
    assert orig[..a.Length] == orig;
    len := w;
  }

  /** `deduplicate`: sort by score, then drop consecutive records with the same name. */
  method Deduplicate(a: array<PackageResult>) returns (len: nat)
    modifies a
    ensures len <= a.Length
    ensures a[..len] == DedupByName(SortByScore(old(a[..])))
  {
    SortInPlace(a);
    len := DedupInPlace(a);
  }

  /** `a` is `b` with some records left out, order kept. */
  predicate IsSubsequence(a: seq<PackageResult>, b: seq<PackageResult>)
    decreases |b|
  {
    a == [] || (b != [] &&
      ((a[|a| - 1] == b[|b| - 1] && IsSubsequence(a[..|a| - 1], b[..|b| - 1]))
       || IsSubsequence(a, b[..|b| - 1])))
  }

  /** No two neighbours in the output share a name. */
  lemma {:induction false} DedupNoAdjacentNames(s: seq<PackageResult>)
    ensures forall i :: 0 <= i < |DedupByName(s)| - 1 ==> DedupByName(s)[i].name != DedupByName(s)[i + 1].name
    decreases |s|
  {
    if |s| > 1 {
      var init := s[..|s| - 1];
      DedupNoAdjacentNames(init);
      var d := DedupByName(init);
      assert d[|d| - 1].name == s[|s| - 2].name;
      if s[|s| - 1].name != s[|s| - 2].name {
        var r := d + [s[|s| - 1]];
        assert DedupByName(s) == r;
        forall i | 0 <= i < |r| - 1 ensures r[i].name != r[i + 1].name {
          if i < |d| - 1 {
            assert r[i] == d[i] && r[i + 1] == d[i + 1];
            assert d[i].name != d[i + 1].name;
          } else {
            assert r[i] == d[|d| - 1] && r[i + 1] == s[|s| - 1];
          }
        }
      }
    }
  }

  /** The output is the input with records left out, in the same order. */
  lemma {:induction false} DedupIsSubsequence(s: seq<PackageResult>)
    ensures IsSubsequence(DedupByName(s), s)
    decreases |s|
  {
    if |s| > 1 {
      var init := s[..|s| - 1];
      DedupIsSubsequence(init);
      var d := DedupByName(init);
      assert s[..|s| - 1] == init;
      if s[|s| - 1].name != s[|s| - 2].name {
        var r := d + [s[|s| - 1]];
        assert r[..|r| - 1] == d && r[|r| - 1] == s[|s| - 1];
        assert IsSubsequence(r, s);
      } else {
        assert DedupByName(s) == d;
        assert IsSubsequence(d, s);
      }
    } else if |s| == 1 {
      assert IsSubsequence([], s[..0]);
    }
  }

  /** Every record of a subsequence comes from the sequence. */
  lemma {:induction false} SubsequenceMembers(a: seq<PackageResult>, b: seq<PackageResult>)
    requires IsSubsequence(a, b)
    ensures forall x :: x in a ==> x in b
    decreases |b|
  {
    if a != [] {
      var b' := b[..|b| - 1];
      if a[|a| - 1] == b[|b| - 1] && IsSubsequence(a[..|a| - 1], b') {
        SubsequenceMembers(a[..|a| - 1], b');
        assert a == a[..|a| - 1] + [a[|a| - 1]];
      } else {
        SubsequenceMembers(a, b');
      }
    }
  }

  /** A subsequence of a sorted sequence is sorted. */
  lemma {:induction false} SubsequenceKeepsSorted(a: seq<PackageResult>, b: seq<PackageResult>)
    requires IsSubsequence(a, b) && Sorted(b)
    ensures Sorted(a)
    decreases |b|
  {
    if a != [] {
      var a', b' := a[..|a| - 1], b[..|b| - 1];
      if a[|a| - 1] == b[|b| - 1] && IsSubsequence(a', b') {
        SubsequenceKeepsSorted(a', b');
        SubsequenceMembers(a', b');
        forall i | 0 <= i < |a'| ensures Cmp(a[i], a[|a| - 1]) != Greater {
          assert a[i] in b';
          var j :| 0 <= j < |b'| && b'[j] == a[i];
          assert Cmp(b[j], b[|b| - 1]) != Greater;
        }
      } else {
        SubsequenceKeepsSorted(a, b');
      }
    }
  }

  /** The first record of every run of equal names survives deduplication. */
  lemma {:induction false} DedupKeepsRunHeads(s: seq<PackageResult>, i: nat)
    requires i < |s| && (i == 0 || s[i - 1].name != s[i].name)
    ensures s[i] in DedupByName(s)
    decreases |s|
  {
    if i < |s| - 1 {
      DedupKeepsRunHeads(s[..|s| - 1], i);
    } else if |s| > 1 {
      assert DedupByName(s)[|DedupByName(s)| - 1] == s[i];
    }
  }

  /** Only run heads survive: a record equal in name to the one before it is dropped. */
  lemma {:induction false} DedupKeepsOnlyRunHeads(s: seq<PackageResult>, x: PackageResult)
    requires x in DedupByName(s)
    ensures exists i :: 0 <= i < |s| && s[i] == x && (i == 0 || s[i - 1].name != s[i].name)
    decreases |s|
  {
    if |s| > 1 {
      var init := s[..|s| - 1];
      if x in DedupByName(init) {
        DedupKeepsOnlyRunHeads(init, x);
        var i :| 0 <= i < |init| && init[i] == x && (i == 0 || init[i - 1].name != init[i].name);
        assert s[i] == x;
      } else {
        assert x == s[|s| - 1];
      }
    } else {
      assert x == s[0];
    }
  }

  /**
   * The deduplicated output is still ranked, and same-named records that the
   * sort leaves apart both survive.
   */
  lemma DeduplicateIsRankedSubsequence(s: seq<PackageResult>)
    ensures IsSubsequence(DedupByName(SortByScore(s)), SortByScore(s))
    ensures Sorted(DedupByName(SortByScore(s)))
  {
    SortByScoreIsSorted(s);
    DedupIsSubsequence(SortByScore(s));
    SubsequenceKeepsSorted(DedupByName(SortByScore(s)), SortByScore(s));
  }

  /**
   * As written, `deduplicate` keeps two records named "a" when a record named
   * "b" ranks between them, although its comment promises the highest-scored
   * record of each name.
   */
  lemma DeduplicateKeepsSeparatedDuplicates()
    ensures var s := [New("a", "apt").(score := 3), New("b", "apt").(score := 2), New("a", "npm").(score := 1)];
      DedupByName(SortByScore(s)) == s
  {
    var s := [New("a", "apt").(score := 3), New("b", "apt").(score := 2), New("a", "npm").(score := 1)];
    SortDescendingThree(s[0], s[1], s[2]);
    assert s == [s[0], s[1], s[2]];
    DedupThreeDistinctNeighbours(s[0], s[1], s[2]);
  }

  /** Three records already in strictly descending score order stay where they are. */
  lemma SortDescendingThree(a: PackageResult, b: PackageResult, c: PackageResult)
    requires a.score > b.score > c.score
    ensures SortByScore([a, b, c]) == [a, b, c]
  {
    assert [a, b, c][..2] == [a, b] && [a, b][..1] == [a] && [a][..0] == [];
    assert SortByScore([a]) == [a];
    assert SortByScore([a, b]) == [a, b];
  }

  /** Three records whose neighbours differ in name all survive `dedup_by`. */
  lemma DedupThreeDistinctNeighbours(a: PackageResult, b: PackageResult, c: PackageResult)
    requires a.name != b.name && b.name != c.name
    ensures DedupByName([a, b, c]) == [a, b, c]
  {
    assert [a, b, c][..2] == [a, b] && [a, b][..1] == [a];
    assert DedupByName([a, b]) == [a, b];
  }

  /** Whether some record of `s` is named `name`. */
  predicate HasName(s: seq<PackageResult>, name: string) {
    exists i :: 0 <= i < |s| && s[i].name == name
  }

  /** Keep the first record of each name, wherever its duplicates are. */
  function KeepFirstByName(s: seq<PackageResult>): (r: seq<PackageResult>)
    ensures |r| <= |s|
    decreases |s|
  {
    if s == [] then []
    else if HasName(s[..|s| - 1], s[|s| - 1].name) then KeepFirstByName(s[..|s| - 1])
    else KeepFirstByName(s[..|s| - 1]) + [s[|s| - 1]]
  }

  /** Each kept record is the first of its name in the input. */
  lemma {:induction false} KeepFirstOrigin(s: seq<PackageResult>)
    ensures forall y :: y in KeepFirstByName(s) ==>
      exists i :: 0 <= i < |s| && s[i] == y && !HasName(s[..i], y.name)
    decreases |s|
  {
    if s != [] {
      var init, last := s[..|s| - 1], s[|s| - 1];
      KeepFirstOrigin(init);
      forall y | y in KeepFirstByName(s)
        ensures exists i :: 0 <= i < |s| && s[i] == y && !HasName(s[..i], y.name)
      {
        if y in KeepFirstByName(init) {
          var i :| 0 <= i < |init| && init[i] == y && !HasName(init[..i], y.name);
          assert s[i] == y && s[..i] == init[..i];
        } else {
          assert y == last && !HasName(s[..|s| - 1], y.name);
        }
      }
    }
  }

  /** No two kept records share a name. */
  lemma {:induction false} KeepFirstDistinct(s: seq<PackageResult>)
    ensures forall i, j :: 0 <= i < j < |KeepFirstByName(s)| ==> KeepFirstByName(s)[i].name != KeepFirstByName(s)[j].name
    decreases |s|
  {
    if s != [] {
      var init, last := s[..|s| - 1], s[|s| - 1];
      KeepFirstDistinct(init);
      if !HasName(init, last.name) {
        var d := KeepFirstByName(init);
        KeepFirstOrigin(init);
        forall k | 0 <= k < |d| ensures d[k].name != last.name {
          assert d[k] in d;
          var m :| 0 <= m < |init| && init[m] == d[k] && !HasName(init[..m], d[k].name);
        }
        var r := d + [last];
        assert KeepFirstByName(s) == r;
        forall i, j | 0 <= i < j < |r| ensures r[i].name != r[j].name {
          if j < |d| {
            assert r[i] == d[i] && r[j] == d[j];
            assert d[i].name != d[j].name;
          } else {
            assert r[i] == d[i] && r[j] == last;
          }
        }
      }
    }
  }

  /** Every name in the input has a kept record. */
  lemma {:induction false} KeepFirstCovers(s: seq<PackageResult>)
    ensures forall i :: 0 <= i < |s| ==> HasName(KeepFirstByName(s), s[i].name)
    decreases |s|
  {
    if s != [] {
      var init, last := s[..|s| - 1], s[|s| - 1];
      KeepFirstCovers(init);
      var d, r := KeepFirstByName(init), KeepFirstByName(s);
      assert forall k :: 0 <= k < |d| ==> r[k] == d[k];
      forall i | 0 <= i < |s| ensures HasName(r, s[i].name) {
        if i < |init| {
          assert init[i] == s[i];
          var k :| 0 <= k < |d| && d[k].name == init[i].name;
        } else if HasName(init, last.name) {
          var m :| 0 <= m < |init| && init[m].name == last.name;
          var k :| 0 <= k < |d| && d[k].name == init[m].name;
        } else {
          assert r[|r| - 1] == last;
        }
      }
    }
  }

  /** On ranked input the kept record of each name has that name's highest score. */
  lemma KeepFirstIsHighest(t: seq<PackageResult>)
    requires Sorted(t)
    ensures forall i, k :: 0 <= i < |t| && 0 <= k < |KeepFirstByName(t)| && t[i].name == KeepFirstByName(t)[k].name ==>
      t[i].score <= KeepFirstByName(t)[k].score
  {
    var r := KeepFirstByName(t);
    KeepFirstOrigin(t);
    forall i, k | 0 <= i < |t| && 0 <= k < |r| && t[i].name == r[k].name
      ensures t[i].score <= r[k].score
    {
      var y := r[k];
      assert y in r;
      var m :| 0 <= m < |t| && t[m] == y && !HasName(t[..m], y.name);
      assert forall q :: 0 <= q < m ==> t[q].name != y.name by {
        forall q | 0 <= q < m ensures t[q].name != y.name {
          assert t[..m][q] == t[q];
        }
      }
      if m < i {
        assert Cmp(t[m], t[i]) != Greater;
      }
    }
  }

  /** Sorting keeps exactly the same records. */
  lemma SortByScoreSameMembers(s: seq<PackageResult>)
    ensures forall x :: x in s <==> x in SortByScore(s)
  {
    SortByScoreIsPermutation(s);
    forall x ensures x in s <==> x in SortByScore(s) {
      assert x in s <==> x in multiset(s);
      assert x in SortByScore(s) <==> x in multiset(SortByScore(s));
    }
  }

  /** Every input name survives ranking-then-keep-first. */
  lemma DedupCorrectedCovers(s: seq<PackageResult>)
    ensures forall i :: 0 <= i < |s| ==> HasName(KeepFirstByName(SortByScore(s)), s[i].name)
  {
    var t := SortByScore(s);
    SortByScoreSameMembers(s);
    KeepFirstCovers(t);
    forall i | 0 <= i < |s| ensures HasName(KeepFirstByName(t), s[i].name) {
      assert s[i] in t;
      var j :| 0 <= j < |t| && t[j] == s[i];
    }
  }

  /** Ranking-then-keep-first invents no record. */
  lemma DedupCorrectedFromInput(s: seq<PackageResult>)
    ensures forall y :: y in KeepFirstByName(SortByScore(s)) ==> y in s
  {
    var t := SortByScore(s);
    SortByScoreSameMembers(s);
    KeepFirstOrigin(t);
    forall y | y in KeepFirstByName(t) ensures y in s {
      var m :| 0 <= m < |t| && t[m] == y && !HasName(t[..m], y.name);
    }
  }

  /** The record kept for a name has the highest score any input record of that name has. */
  lemma DedupCorrectedHighest(s: seq<PackageResult>)
    ensures forall x, y :: x in s && y in KeepFirstByName(SortByScore(s)) && x.name == y.name ==> x.score <= y.score
  {
    var t := SortByScore(s);
    var r := KeepFirstByName(t);
    SortByScoreIsSorted(s);
    SortByScoreSameMembers(s);
    KeepFirstIsHighest(t);
    forall x, y | x in s && y in r && x.name == y.name ensures x.score <= y.score {
      assert x in t;
      var i :| 0 <= i < |t| && t[i] == x;
      var k :| 0 <= k < |r| && r[k] == y;
    }
  }

  /**
   * `deduplicate` as its comment describes it: rank, then keep the first, and
   * therefore highest-scored, record of each name.
   */
  function DeduplicateCorrected(s: seq<PackageResult>): (r: seq<PackageResult>)
    ensures forall i, j :: 0 <= i < j < |r| ==> r[i].name != r[j].name
    ensures forall i :: 0 <= i < |s| ==> HasName(r, s[i].name)
    ensures forall y :: y in r ==> y in s
    ensures forall x, y :: x in s && y in r && x.name == y.name ==> x.score <= y.score
  {
    KeepFirstDistinct(SortByScore(s));
    DedupCorrectedCovers(s);
    DedupCorrectedFromInput(s);
    DedupCorrectedHighest(s);
    KeepFirstByName(SortByScore(s))
  }
}
