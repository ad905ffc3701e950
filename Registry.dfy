/**
 * The shim registry: a table from shim name to the entry describing the
 * binary it forwards to. Loading it from and saving it to disk are not
 * modelled; the creation time is an input.
 */
module Registry {
  import opened Wrappers

  /** `ShimEntry`; `createdAt` stands for the timestamp taken when the shim was added. */
  datatype ShimEntry = ShimEntry(name: string, target: string, installedBy: string, createdAt: int)

  /** Every entry is stored under its own name. */
  ghost predicate KeysAreNames(m: map<string, ShimEntry>) {
    forall n :: n in m ==> m[n].name == n
  }

  /** Adding under a name that was absent and then removing it gives the table back. */
  lemma RemoveUndoesAdd(m: map<string, ShimEntry>, e: ShimEntry)
    requires e.name !in m
    ensures m[e.name := e] - {e.name} == m
  {
    var m' := m[e.name := e] - {e.name};
    assert m'.Keys == m.Keys;
    assert forall n :: n in m ==> m'[n] == m[n];
  }

  /** Removing an absent name changes nothing. */
  lemma RemoveAbsent(m: map<string, ShimEntry>, name: string)
    requires name !in m
    ensures m - {name} == m
  {
    assert (m - {name}).Keys == m.Keys;
  }

  /** `entries` holds the entry of every name in `seen` once, and nothing else. */
  ghost predicate ListedOnce(m: map<string, ShimEntry>, entries: seq<ShimEntry>, seen: set<string>)
    requires seen <= m.Keys
  {
    && |entries| == |seen|
    && (forall i :: 0 <= i < |entries| ==> entries[i].name in seen && m[entries[i].name] == entries[i])
    && (forall n :: n in seen ==> m[n] in entries)
    && (forall i, j :: 0 <= i < j < |entries| ==> entries[i].name != entries[j].name)
  }

  /** Listing one more name keeps the listing exact. */
  lemma ListStep(m: map<string, ShimEntry>, entries: seq<ShimEntry>, seen: set<string>, n: string)
    requires KeysAreNames(m) && seen <= m.Keys && n in m && n !in seen
    requires ListedOnce(m, entries, seen)
    ensures ListedOnce(m, entries + [m[n]], seen + {n})
  {
    var entries' := entries + [m[n]];
    assert forall i :: 0 <= i < |entries| ==> entries[i].name != n;
    assert entries'[|entries|] == m[n];
    assert forall e :: e in entries ==> e in entries';
  }

  /** A listing of every name lists every entry exactly once. */
  lemma ListedAll(m: map<string, ShimEntry>, entries: seq<ShimEntry>)
    requires ListedOnce(m, entries, m.Keys)
    ensures |entries| == |m|
    ensures forall e :: e in entries ==> e.name in m && m[e.name] == e
    ensures forall n :: n in m ==> m[n] in entries
    ensures forall i, j :: 0 <= i < j < |entries| ==> entries[i].name != entries[j].name
  {
    assert |m.Keys| == |m|;
  }

  /** A table is empty exactly when no name has an entry. */
  lemma EmptyIffNoNames(m: map<string, ShimEntry>)
    ensures |m| == 0 <==> forall n :: n !in m
  {
    if |m| != 0 {
      assert m != map[];
      var n :| n in m;
    }
  }

  class ShimRegistry {
    var shims: map<string, ShimEntry>

    ghost predicate Valid()
      reads this
    {
      KeysAreNames(shims)
    }

    /** `ShimRegistry::default`: no shims. */
    constructor ()
      ensures Valid() && shims == map[]
    {
      shims := map[];
    }

    /**
     * `add`: an upsert. The entry for `name` becomes the new one, every
     * other name keeps its entry, and the count grows by one only for a
     * new name.
     */
    method Add(name: string, target: string, installedBy: string, createdAt: int)
      requires Valid()
      modifies this
      ensures Valid()
      ensures shims == old(shims)[name := ShimEntry(name, target, installedBy, createdAt)]
      ensures Get(name) == Some(ShimEntry(name, target, installedBy, createdAt))
      ensures forall n :: n != name ==> Get(n) == old(Get(n))
      ensures Len() == if name in old(shims) then old(Len()) else old(Len()) + 1
    {
      var entry := ShimEntry(name, target, installedBy, createdAt);
      shims := shims[name := entry];
    }

    /**
     * `remove`: returns the entry that was stored under `name`, if any;
     * afterwards `name` is absent and every other name keeps its entry.
     */
    method Remove(name: string) returns (removed: Option<ShimEntry>)
      requires Valid()
      modifies this
      ensures Valid()
      ensures removed == old(Get(name))
      ensures shims == old(shims) - {name}
      ensures Get(name) == None
      ensures forall n :: n != name ==> Get(n) == old(Get(n))
      ensures removed == None ==> shims == old(shims)
    {
      if name in shims {
        removed := Some(shims[name]);
        shims := shims - {name};
      } else {
        removed := None;
        RemoveAbsent(shims, name);
      }
    }

    /** `get`: the entry stored under `name`, which carries that name. */
    function Get(name: string): (r: Option<ShimEntry>)
      reads this
      ensures r.Some? <==> name in shims
      ensures r.Some? && Valid() ==> r.value.name == name
    {
      if name in shims then Some(shims[name]) else None
    }

    /** `len`: how many names have an entry. */
    function Len(): (n: nat)
      reads this
      ensures n == |shims.Keys|
    {
      |shims|
    }

    /** `is_empty`: no shim is stored, so `get` finds no name. */
    function IsEmpty(): (b: bool)
      reads this
      ensures b <==> Len() == 0
      ensures b <==> forall n :: Get(n).None?
    {
      EmptyIffNoNames(shims);
      assert (forall n :: Get(n).None?) <==> (forall n :: n !in shims) by {
        forall n
          ensures Get(n).None? <==> n !in shims
        {
        }
      }
      |shims| == 0
    }

    /**
     * `list`: every stored entry exactly once, in an order the table does
     * not determine.
     */
    method List() returns (entries: seq<ShimEntry>)
      requires Valid()
      ensures |entries| == Len()
      ensures forall e :: e in entries ==> e.name in shims && shims[e.name] == e
      ensures forall n :: n in shims ==> shims[n] in entries
      ensures forall i, j :: 0 <= i < j < |entries| ==> entries[i].name != entries[j].name
    {
      var m := shims;
      entries := [];
      var rest := m.Keys;
      ghost var seen: set<string> := {};
      while rest != {}
        invariant seen <= m.Keys && rest == m.Keys - seen
        invariant ListedOnce(m, entries, seen)
        decreases rest
      {
        var n :| n in rest;
        ListStep(m, entries, seen, n);
        entries := entries + [m[n]];
        rest := rest - {n};
        seen := seen + {n};
      }
      assert seen == m.Keys;
      ListedAll(m, entries);
    }
  }
}
