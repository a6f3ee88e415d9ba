// lib/config/migrations.go: versioned conversions. What the conversions do is left open; what
// matters is which of them run, and in which order.
module Migrations {
  import opened Common
  import opened Sorting
  import opened SliceUtil

  // convert may be absent, in which case reaching the target only changes the version.
  datatype Migration<!T(!new)> = Migration(target: int, convert: Option<T -> T>)

  datatype Config<T> = Config(version: int, body: T)

  function Convert<T(!new)>(m: Migration<T>, body: T): T {
    match m.convert
    case Some(f) => f(body)
    case None => body
  }

  // migration.apply
  function ApplyOne<T(!new)>(m: Migration<T>, c: Config<T>): Config<T> {
    if c.version >= m.target then c else Config(m.target, Convert(m, c.body))
  }

  lemma ApplyOneIs<T(!new)>(m: Migration<T>, c: Config<T>)
    ensures m.target <= c.version ==> ApplyOne(m, c) == c
    ensures m.target > c.version ==> ApplyOne(m, c).version == m.target
    ensures m.target > c.version && m.convert == None ==> ApplyOne(m, c).body == c.body
    ensures m.target > c.version ==> forall f :: m.convert == Some(f) ==> ApplyOne(m, c).body == f(c.body)
  {
  }

  // The loop of migrationSet.apply, in list order.
  function ApplyAll<T(!new)>(ms: seq<Migration<T>>, c: Config<T>): Config<T> {
    if ms == [] then c else ApplyAll(ms[1..], ApplyOne(ms[0], c))
  }

  predicate TargetLess<T(!new)>(a: Migration<T>, b: Migration<T>) {
    a.target < b.target
  }

  class Configuration<T(!new)> {
    var version: int
    var body: T

    ghost function Value(): Config<T>
      reads this
    {
      Config(version, body)
    }

    constructor (c: Config<T>)
      ensures Value() == c
    {
      version, body := c.version, c.body;
    }

    method Apply(m: Migration<T>)
      modifies this
      ensures Value() == ApplyOne(m, old(Value()))
    {
      if version >= m.target {
        return;
      }
      match m.convert {
        case Some(f) => body := f(body);
        case None =>
      }
      version := m.target;
    }
  }

  // migrationSet.apply: sorts the set in place, then applies every migration.
  method Apply<T(!new)>(ms: array<Migration<T>>, cfg: Configuration<T>)
    modifies ms, cfg
    ensures multiset(ms[..]) == multiset(old(ms[..])) && Sorted(ms[..], TargetLess)
    ensures cfg.Value() == ApplyAll(ms[..], old(cfg.Value()))
  {
    var sorted := Sort(ms[..], TargetLess);
    forall i | 0 <= i < ms.Length {
      ms[i] := sorted[i];
    }
    assert ms[..] == sorted;
    ghost var start := cfg.Value();
    for i := 0 to ms.Length
      invariant ms[..] == sorted
      invariant ApplyAll(sorted, start) == ApplyAll(sorted[i..], cfg.Value())
    {
      assert sorted[i..][1..] == sorted[i + 1..];
      cfg.Apply(ms[i]);
    }
  }

  // ---------- which conversions run ----------

  function Above<T(!new)>(version: int): Migration<T> -> bool {
    (m: Migration<T>) => m.target > version
  }

  function UpTo<T(!new)>(version: int): Migration<T> -> bool {
    (m: Migration<T>) => m.target <= version
  }

  // All conversions of a list, unconditionally and in order.
  function RunAll<T(!new)>(ms: seq<Migration<T>>, body: T): T {
    if ms == [] then body else RunAll(ms[1..], Convert(ms[0], body))
  }

  function Reached<T(!new)>(ms: seq<Migration<T>>, version: int): int {
    if ms == [] then version else ms[|ms| - 1].target
  }

  // Exactly the migrations with a target above the starting version run, once each, in ascending
  // order of target, and the version ends at the last of them.
  lemma {:induction false} AppliesExactlyPending<T(!new)>(ms: seq<Migration<T>>, c: Config<T>)
    requires StrictlySorted(ms, TargetLess)
    ensures var pending := Filter(ms, Above(c.version));
      ApplyAll(ms, c) == Config(Reached(pending, c.version), RunAll(pending, c.body))
    decreases |ms|
  {
    if ms != [] {
      var m := ms[0];
      var next := ApplyOne(m, c);
      AppliesExactlyPending(ms[1..], next);
      if m.target > c.version {
        forall x | x in ms[1..] ensures Above(m.target)(x) && Above(c.version)(x) {
          var i :| 0 <= i < |ms[1..]| && ms[1..][i] == x;
          assert TargetLess(ms[0], ms[i + 1]);
        }
        FilterAll(ms[1..], Above(m.target));
        FilterAll(ms[1..], Above(c.version));
      }
    }
  }

  // The version ends at the greater of the start and the highest target.
  lemma FinalVersion<T(!new)>(ms: seq<Migration<T>>, c: Config<T>)
    requires StrictlySorted(ms, TargetLess)
    ensures ApplyAll(ms, c).version
         == if ms != [] && ms[|ms| - 1].target > c.version then ms[|ms| - 1].target else c.version
  {
    AppliesExactlyPending(ms, c);
    var pending := Filter(ms, Above(c.version));
    if ms != [] {
      var n := |ms| - 1;
      assert ms == ms[..n] + [ms[n]];
      FilterAppend(ms[..n], [ms[n]], Above(c.version));
      assert [ms[n]][1..] == [];
      if ms[n].target <= c.version {
        forall x | x in ms ensures !Above(c.version)(x) {
          var i :| 0 <= i < |ms| && ms[i] == x;
          assert i < n ==> TargetLess(ms[i], ms[n]);
        }
        FilterNone(ms, Above(c.version));
      }
    }
  }

  // ---------- path independence ----------

  lemma TargetOrder<T(!new)>()
    ensures StrictWeakOrder<Migration<T>>(TargetLess)
  {
  }

  ghost predicate DistinctTargets<T(!new)>(ms: seq<Migration<T>>) {
    forall i, j :: 0 <= i < j < |ms| ==> ms[i].target != ms[j].target
  }

  lemma SortedDistinct<T(!new)>(ms: seq<Migration<T>>, sorted: seq<Migration<T>>)
    requires DistinctTargets(ms) && multiset(sorted) == multiset(ms) && Sorted(sorted, TargetLess)
    ensures StrictlySorted(sorted, TargetLess)
  {
    forall i, j | 0 <= i < j < |sorted| ensures TargetLess(sorted[i], sorted[j]) {
      DistinctAfterSort(ms, sorted, (m: Migration<T>) => m.target, i, j);
    }
  }

  // However the migrations are listed, they have the same effect.
  lemma ListingOrderIsIrrelevant<T(!new)>(ms: seq<Migration<T>>, ns: seq<Migration<T>>,
                                          sortedMs: seq<Migration<T>>, sortedNs: seq<Migration<T>>, c: Config<T>)
    requires multiset(ms) == multiset(ns) && DistinctTargets(ms) && DistinctTargets(ns)
    requires multiset(sortedMs) == multiset(ms) && Sorted(sortedMs, TargetLess)
    requires multiset(sortedNs) == multiset(ns) && Sorted(sortedNs, TargetLess)
    ensures ApplyAll(sortedMs, c) == ApplyAll(sortedNs, c)
  {
    SortedDistinct(ms, sortedMs);
    SortedDistinct(ns, sortedNs);
    SameElements(sortedMs, sortedNs);
    TargetOrder<T>();
    StrictlySortedUnique(sortedMs, sortedNs, TargetLess);
  }

  lemma {:induction false} ApplyAppend<T(!new)>(a: seq<Migration<T>>, b: seq<Migration<T>>, c: Config<T>)
    ensures ApplyAll(a + b, c) == ApplyAll(b, ApplyAll(a, c))
    decreases |a|
  {
    if a == [] {
      assert a + b == b;
    } else {
      assert (a + b)[1..] == a[1..] + b;
      ApplyAppend(a[1..], b, ApplyOne(a[0], c));
    }
  }

  lemma {:induction false} NothingToDo<T(!new)>(ms: seq<Migration<T>>, c: Config<T>)
    requires forall m :: m in ms ==> m.target <= c.version
    ensures ApplyAll(ms, c) == c
    decreases |ms|
  {
    if ms != [] {
      NothingToDo(ms[1..], c);
    }
  }

  lemma {:induction false} VersionReached<T(!new)>(ms: seq<Migration<T>>, c: Config<T>)
    ensures forall m :: m in ms ==> m.target <= ApplyAll(ms, c).version
    ensures c.version <= ApplyAll(ms, c).version
    decreases |ms|
  {
    if ms != [] {
      VersionReached(ms[1..], ApplyOne(ms[0], c));
      assert ms == [ms[0]] + ms[1..];
    }
  }

  // A second application does nothing.
  lemma ApplyIsIdempotent<T(!new)>(ms: seq<Migration<T>>, c: Config<T>)
    ensures ApplyAll(ms, ApplyAll(ms, c)) == ApplyAll(ms, c)
  {
    VersionReached(ms, c);
    NothingToDo(ms, ApplyAll(ms, c));
  }

  lemma {:induction false} SplitByTarget<T(!new)>(ms: seq<Migration<T>>, cut: int)
    requires StrictlySorted(ms, TargetLess)
    ensures ms == Filter(ms, UpTo(cut)) + Filter(ms, Above(cut))
    decreases |ms|
  {
    if ms != [] {
      if ms[0].target > cut {
        forall x | x in ms ensures Above(cut)(x) && !UpTo(cut)(x) {
          var i :| 0 <= i < |ms| && ms[i] == x;
          assert i > 0 ==> TargetLess(ms[0], ms[i]);
        }
        FilterAll(ms, Above(cut));
        FilterNone(ms, UpTo(cut));
      } else {
        SplitByTarget(ms[1..], cut);
        var early, late := Filter(ms[1..], UpTo(cut)), Filter(ms[1..], Above(cut));
        assert ms == [ms[0]] + (early + late);
        assert [ms[0]] + (early + late) == ([ms[0]] + early) + late;
      }
    }
  }

  // Stopping at an intermediate version first, with a program that knew only the migrations up to
  // it, and upgrading later leads to the same configuration.
  lemma UpgradePathIsIrrelevant<T(!new)>(ms: seq<Migration<T>>, cut: int, c: Config<T>)
    requires StrictlySorted(ms, TargetLess)
    ensures ApplyAll(ms, ApplyAll(Filter(ms, UpTo(cut)), c)) == ApplyAll(ms, c)
  {
    var early, late := Filter(ms, UpTo(cut)), Filter(ms, Above(cut));
    SplitByTarget(ms, cut);
    ApplyAppend(early, late, c);
    ApplyAppend(early, late, ApplyAll(early, c));
    ApplyIsIdempotent(early, c);
  }
}
