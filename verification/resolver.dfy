/**
 * The resolver as the program runs it: a recursive procedure that consults
 * every source in order and adds each answer to the shared package set,
 * recursing into every declared dependency at its minimum version. The
 * loop over one answer's dependencies is its own method here.
 */
module Resolver {
  import opened Wrappers
  import opened Packages
  import opened PackageSets
  import opened Resolution

  /** Once the answer for `p` is added, the measure is below its value when `p` was entered. */
  lemma AddedBelowStart(universe: set<Identity>, p: Identity, start: seq<Info>, before: seq<Info>, info: Info)
    requires Key(p) in universe && Key(info.identity) == Key(p)
    requires start <= before && Key(p) !in KeysOf(start)
    requires Key(p) in KeysOf(before) ==> Measure(universe, before) < Measure(universe, start)
    ensures Key(p) in KeysOf(Insert(before, info))
    ensures Measure(universe, Insert(before, info)) < Measure(universe, start)
  {
    KeysOfPrefix(start, before);
    InsertRank(universe, p, before, info);
    MeasureShrinks(universe, start, before);
  }

  /**
   * Resolves `package` and everything it depends on into `available`: returns
   * at once if the package is present; otherwise asks every source in order,
   * adds each answer (a no-op after the first) and resolves that answer's
   * dependencies. The set only grows, and its final content is the one
   * `Visit` specifies. The `universe` is ghost: it only bounds the recursion.
   */
  method GetPackageDependencies(package: Identity, framework: Framework, sources: seq<Source>,
                                available: PackageSet, ghost universe: set<Identity>)
    requires available.Valid()
    requires WellBehaved(sources, framework, universe) && Key(package) in universe
    modifies available
    ensures available.Valid()
    ensures old(available.entries) <= available.entries
    ensures available.entries == Visit(sources, framework, universe, package, old(available.entries))
    decreases Measure(universe, available.entries), 1
  {
    var present := available.Contains(package);
    if present {
      return;
    }
    ghost var start := available.entries;
    assert QueryRank(universe, package, start) == Measure(universe, start);
    for i := 0 to |sources|
      invariant available.Valid()
      invariant start <= available.entries
      invariant Key(package) in KeysOf(available.entries) ==> Measure(universe, available.entries) < Measure(universe, start)
      invariant QuerySources(sources, framework, universe, package, i, available.entries)
                == QuerySources(sources, framework, universe, package, 0, start)
    {
      var dependencyInfo := sources[i](Key(package), framework);
      if dependencyInfo.None? {
        continue;
      }
      var info := dependencyInfo.value;
      ghost var before := available.entries;
      QueryAnswered(sources, framework, universe, package, i, before);
      AddedBelowStart(universe, package, start, before, info);
      var _ := available.Add(info);
      GetDependencies(info.deps, framework, sources, available, universe, Measure(universe, start));
      MeasureShrinks(universe, Insert(before, info), available.entries);
    }
  }

  /** Resolves each dependency in declaration order, at its range's minimum version. */
  method GetDependencies(deps: seq<Dependency>, framework: Framework, sources: seq<Source>,
                         available: PackageSet, ghost universe: set<Identity>, ghost bound: nat)
    requires available.Valid()
    requires WellBehaved(sources, framework, universe)
    requires forall d | d in deps :: Key(Target(d)) in universe
    requires Measure(universe, available.entries) < bound
    modifies available
    ensures available.Valid()
    ensures old(available.entries) <= available.entries
    ensures available.entries == ExploreDeps(sources, framework, universe, deps, 0, old(available.entries))
    decreases bound, 0
  {
    ghost var start := available.entries;
    for j := 0 to |deps|
      invariant available.Valid()
      invariant start <= available.entries
      invariant Measure(universe, available.entries) < bound
      invariant ExploreDeps(sources, framework, universe, deps, j, available.entries)
                == ExploreDeps(sources, framework, universe, deps, 0, start)
    {
      var dependency := deps[j];
      ghost var current := available.entries;
      GetPackageDependencies(Identity(dependency.id, dependency.range.minVersion), framework, sources,
                             available, universe);
      MeasureShrinks(universe, current, available.entries);
    }
  }
}
