/**
 * The dependency-closure resolution as a specification: depth-first expansion
 * of one identity against an ordered list of sources, accumulating answers
 * into an insertion-ordered sequence keyed by identity.
 *
 * A source is a deterministic lookup: given the (normalised) identity of a
 * package and the target framework, it answers the package's dependency
 * information or `None` for "not found".
 */
module Resolution {
  import opened Wrappers
  import opened Packages

  type Source = (Identity, Framework) -> Option<Info>

  /** The identity a dependency is resolved to: its id at its range's minimum version. */
  function Target(d: Dependency): Identity
  {
    Identity(d.id, d.range.minVersion)
  }

  /**
   * The minimum-version rule: a dependency stands for its id at exactly its
   * range's lower bound, whatever the upper bound, and at no other version.
   */
  lemma TargetVersion(d: Dependency, v: Version)
    ensures Key(Target(d)) == Key(Identity(d.id, v)) <==> v == d.range.minVersion
  {
    SameKey(Target(d), Identity(d.id, v));
  }

  /** The index of the first source, from `from` on, that answers for `k`, or |sources| if none does. */
  function FirstSource(sources: seq<Source>, k: Identity, fw: Framework, from: nat): (r: nat)
    requires from <= |sources|
    ensures from <= r <= |sources|
    ensures forall i :: from <= i < r ==> sources[i](k, fw).None?
    ensures r < |sources| ==> sources[r](k, fw).Some?
    decreases |sources| - from
  {
    if from == |sources| then from
    else if sources[from](k, fw).Some? then from
    else FirstSource(sources, k, fw, from + 1)
  }

  /** The answer of the first source, in source order, that knows `k`. */
  function Winner(sources: seq<Source>, k: Identity, fw: Framework): (r: Option<Info>)
    ensures r.None? <==> forall i :: 0 <= i < |sources| ==> sources[i](k, fw).None?
    ensures r.Some? ==> exists i :: 0 <= i < |sources| && sources[i](k, fw) == r &&
                                    forall j :: 0 <= j < i ==> sources[j](k, fw).None?
  {
    var f := FirstSource(sources, k, fw, 0);
    if f < |sources| then sources[f](k, fw) else None
  }

  /**
   * What resolution needs of the sources to terminate: a finite universe of
   * keys, closed under the dependency targets of every answer, in which every
   * answer carries the identity that was asked for.
   */
  ghost predicate WellBehaved(sources: seq<Source>, fw: Framework, universe: set<Identity>)
  {
    forall i, k | 0 <= i < |sources| && k in universe && sources[i](k, fw).Some? ::
      && Key(sources[i](k, fw).value.identity) == k
      && forall d | d in sources[i](k, fw).value.deps :: Key(Target(d)) in universe
  }

  /** What WellBehaved promises of one answer. */
  lemma AnswerFacts(sources: seq<Source>, fw: Framework, universe: set<Identity>, i: nat, k: Identity)
    requires WellBehaved(sources, fw, universe)
    requires i < |sources| && k in universe && sources[i](k, fw).Some?
    ensures Key(sources[i](k, fw).value.identity) == k
    ensures forall d | d in sources[i](k, fw).value.deps :: Key(Target(d)) in universe
  {
  }

  /** The number of keys of the universe not yet in the set. */
  ghost function Measure(universe: set<Identity>, es: seq<Info>): nat
  {
    |universe - KeysOf(es)|
  }

  lemma SubsetCardinality<T>(a: set<T>, b: set<T>)
    requires a <= b
    ensures |a| <= |b|
  {
    if a != {} {
      var x :| x in a;
      SubsetCardinality(a - {x}, b - {x});
    }
  }

  lemma MeasureShrinks(universe: set<Identity>, a: seq<Info>, b: seq<Info>)
    requires KeysOf(a) <= KeysOf(b)
    ensures Measure(universe, b) <= Measure(universe, a)
  {
    SubsetCardinality(universe - KeysOf(b), universe - KeysOf(a));
  }

  /**
   * The measure of a query for `p`: once `p` is in the set, the set may stay
   * the same size while `p`'s dependencies are explored, so one is added.
   */
  ghost function QueryRank(universe: set<Identity>, p: Identity, es: seq<Info>): nat
  {
    Measure(universe, es) + (if Key(p) in KeysOf(es) then 1 else 0)
  }

  /** Inserting the answer for `p` puts `p` in the set and does not raise the query's measure. */
  lemma InsertRank(universe: set<Identity>, p: Identity, es: seq<Info>, info: Info)
    requires Key(p) in universe && Key(info.identity) == Key(p)
    ensures es <= Insert(es, info) && Key(p) in KeysOf(Insert(es, info))
    ensures KeysOf(Insert(es, info)) == KeysOf(es) + {Key(p)}
    ensures DistinctKeys(es) ==> DistinctKeys(Insert(es, info))
    ensures Measure(universe, Insert(es, info)) + 1 <= QueryRank(universe, p, es)
  {
    InsertSpec(es, info);
    var k := Key(p);
    if k !in KeysOf(es) {
      assert universe - KeysOf(es) == (universe - KeysOf(Insert(es, info))) + {k};
    }
  }

  /** Once `p` is in the set, growing the set does not raise the query's measure. */
  lemma GrowRank(universe: set<Identity>, p: Identity, a: seq<Info>, b: seq<Info>)
    requires Key(p) in KeysOf(a) && KeysOf(a) <= KeysOf(b)
    ensures QueryRank(universe, p, b) <= Measure(universe, a) + 1
  {
    MeasureShrinks(universe, a, b);
  }

  /**
   * Resolving `p` into the set `es`: nothing happens if `p` is present
   * already; otherwise every source is asked in order.
   */
  ghost function Visit(sources: seq<Source>, fw: Framework, universe: set<Identity>,
                       p: Identity, es: seq<Info>): (r: seq<Info>)
    requires WellBehaved(sources, fw, universe)
    requires Key(p) in universe
    ensures KeysOf(es) <= KeysOf(r)
    ensures Key(p) in KeysOf(es) ==> r == es
    decreases Measure(universe, es), 2, 0
  {
    if Key(p) in KeysOf(es) then es
    else
      assert QueryRank(universe, p, es) == Measure(universe, es);
      QuerySources(sources, fw, universe, p, 0, es)
  }

  /**
   * Asking sources i, i+1, ... for `p`: a source that does not know `p` is
   * skipped; an answer is added to the set (a no-op if `p` is present) and
   * then each of its dependencies is resolved, whether or not it was added.
   */
  ghost function QuerySources(sources: seq<Source>, fw: Framework, universe: set<Identity>,
                              p: Identity, i: nat, es: seq<Info>): (r: seq<Info>)
    requires WellBehaved(sources, fw, universe)
    requires Key(p) in universe && i <= |sources|
    ensures KeysOf(es) <= KeysOf(r)
    decreases QueryRank(universe, p, es), 1, |sources| - i
  {
    if i == |sources| then es
    else match sources[i](Key(p), fw)
      case None => QuerySources(sources, fw, universe, p, i + 1, es)
      case Some(info) =>
        AnswerFacts(sources, fw, universe, i, Key(p));
        InsertRank(universe, p, es, info);
        var added := Insert(es, info);
        var explored := ExploreDeps(sources, fw, universe, info.deps, 0, added);
        GrowRank(universe, p, added, explored);
        QuerySources(sources, fw, universe, p, i + 1, explored)
  }

  /** Resolving dependencies j, j+1, ... in declaration order, each at its minimum version. */
  ghost function ExploreDeps(sources: seq<Source>, fw: Framework, universe: set<Identity>,
                             deps: seq<Dependency>, j: nat, es: seq<Info>): (r: seq<Info>)
    requires WellBehaved(sources, fw, universe)
    requires j <= |deps| && forall d | d in deps :: Key(Target(d)) in universe
    ensures KeysOf(es) <= KeysOf(r)
    decreases Measure(universe, es) + 1, 0, |deps| - j
  {
    if j == |deps| then es
    else
      var visited := Visit(sources, fw, universe, Target(deps[j]), es);
      MeasureShrinks(universe, es, visited);
      ExploreDeps(sources, fw, universe, deps, j + 1, visited)
  }

  /** The final set for a root identity, starting from the empty set. */
  ghost function Resolve(sources: seq<Source>, fw: Framework, universe: set<Identity>, root: Identity): seq<Info>
    requires WellBehaved(sources, fw, universe)
    requires Key(root) in universe
  {
    Visit(sources, fw, universe, root, [])
  }

  /** One step of QuerySources when source `i` knows `p`. */
  lemma QueryAnswered(sources: seq<Source>, fw: Framework, universe: set<Identity>, p: Identity, i: nat, es: seq<Info>)
    requires WellBehaved(sources, fw, universe) && Key(p) in universe && i < |sources|
    requires sources[i](Key(p), fw).Some?
    ensures var info := sources[i](Key(p), fw).value;
            && Key(info.identity) == Key(p)
            && (forall d | d in info.deps :: Key(Target(d)) in universe)
            && QuerySources(sources, fw, universe, p, i, es)
               == QuerySources(sources, fw, universe, p, i + 1,
                               ExploreDeps(sources, fw, universe, info.deps, 0, Insert(es, info)))
  {
    AnswerFacts(sources, fw, universe, i, Key(p));
  }
}

/**
 * What resolution promises: the set it builds holds only first answers, one
 * per identity, and is closed under the dependencies of every answer.
 */
module ResolutionProperties {
  import opened Wrappers
  import opened Packages
  import opened Resolution

  /**
   * At most one entry per identity, every key is in the universe, and every
   * entry is the first answer any source gives for its identity.
   */
  ghost predicate Sound(sources: seq<Source>, fw: Framework, universe: set<Identity>, es: seq<Info>)
  {
    && DistinctKeys(es)
    && KeysOf(es) <= universe
    && forall e | e in es :: Winner(sources, Key(e.identity), fw) == Some(e)
  }

  lemma {:induction false} VisitSound(sources: seq<Source>, fw: Framework, universe: set<Identity>,
                                      p: Identity, es: seq<Info>)
    requires WellBehaved(sources, fw, universe) && Key(p) in universe
    requires Sound(sources, fw, universe, es)
    ensures Sound(sources, fw, universe, Visit(sources, fw, universe, p, es))
    decreases Measure(universe, es), 2, 0, 0
  {
    if Key(p) !in KeysOf(es) {
      assert QueryRank(universe, p, es) == Measure(universe, es);
      QuerySound(sources, fw, universe, p, 0, es);
    }
  }

  lemma {:induction false} QuerySound(sources: seq<Source>, fw: Framework, universe: set<Identity>,
                                      p: Identity, i: nat, es: seq<Info>)
    requires WellBehaved(sources, fw, universe) && Key(p) in universe && i <= |sources|
    requires Sound(sources, fw, universe, es)
    requires Key(p) !in KeysOf(es) ==> FirstSource(sources, Key(p), fw, 0) >= i
    ensures Sound(sources, fw, universe, QuerySources(sources, fw, universe, p, i, es))
    decreases QueryRank(universe, p, es), 1, |sources| - i, 1
  {
    if i < |sources| {
      if sources[i](Key(p), fw).None? {
        QuerySound(sources, fw, universe, p, i + 1, es);
      } else {
        AnsweredSound(sources, fw, universe, p, i, es);
      }
    }
  }

  /** Adding the answer of source `i` for `p` keeps the set sound. */
  lemma InsertSound(sources: seq<Source>, fw: Framework, universe: set<Identity>,
                    p: Identity, i: nat, es: seq<Info>)
    requires WellBehaved(sources, fw, universe) && Key(p) in universe && i < |sources|
    requires sources[i](Key(p), fw).Some?
    requires Sound(sources, fw, universe, es)
    requires Key(p) !in KeysOf(es) ==> FirstSource(sources, Key(p), fw, 0) >= i
    ensures Sound(sources, fw, universe, Insert(es, sources[i](Key(p), fw).value))
  {
    var k := Key(p);
    var info := sources[i](k, fw).value;
    AnswerFacts(sources, fw, universe, i, k);
    InsertSpec(es, info);
    if k !in KeysOf(es) {
      assert FirstSource(sources, k, fw, 0) == i;
      assert Insert(es, info) == es + [info];
    }
  }

  /** The step of QuerySound where source `i` knows `p`. */
  lemma {:induction false} AnsweredSound(sources: seq<Source>, fw: Framework, universe: set<Identity>,
                                         p: Identity, i: nat, es: seq<Info>)
    requires WellBehaved(sources, fw, universe) && Key(p) in universe && i < |sources|
    requires sources[i](Key(p), fw).Some?
    requires Sound(sources, fw, universe, es)
    requires Key(p) !in KeysOf(es) ==> FirstSource(sources, Key(p), fw, 0) >= i
    ensures Sound(sources, fw, universe, QuerySources(sources, fw, universe, p, i, es))
    decreases QueryRank(universe, p, es), 1, |sources| - i, 0
  {
    var info := sources[i](Key(p), fw).value;
    QueryAnswered(sources, fw, universe, p, i, es);
    var added := Insert(es, info);
    InsertRank(universe, p, es, info);
    InsertSound(sources, fw, universe, p, i, es);
    ExploreSound(sources, fw, universe, info.deps, 0, added);
    var explored := ExploreDeps(sources, fw, universe, info.deps, 0, added);
    GrowRank(universe, p, added, explored);
    QuerySound(sources, fw, universe, p, i + 1, explored);
  }

  lemma {:induction false} ExploreSound(sources: seq<Source>, fw: Framework, universe: set<Identity>,
                                        deps: seq<Dependency>, j: nat, es: seq<Info>)
    requires WellBehaved(sources, fw, universe)
    requires j <= |deps| && forall d | d in deps :: Key(Target(d)) in universe
    requires Sound(sources, fw, universe, es)
    ensures Sound(sources, fw, universe, ExploreDeps(sources, fw, universe, deps, j, es))
    decreases Measure(universe, es) + 1, 0, |deps| - j, 0
  {
    if j < |deps| {
      VisitSound(sources, fw, universe, Target(deps[j]), es);
      var visited := Visit(sources, fw, universe, Target(deps[j]), es);
      MeasureShrinks(universe, es, visited);
      ExploreSound(sources, fw, universe, deps, j + 1, visited);
    }
  }

  /** Some source's answer for the key `k` declares a dependency whose target has the key `q`. */
  ghost predicate Declares(sources: seq<Source>, fw: Framework, k: Identity, q: Identity)
  {
    exists i, d :: 0 <= i < |sources| && sources[i](k, fw).Some?
                   && d in sources[i](k, fw).value.deps && Key(Target(d)) == q
  }

  /** `q` is the root, or a dependency declared for some package already in `es`. */
  ghost predicate Demanded(sources: seq<Source>, fw: Framework, root: Identity, q: Identity, es: seq<Info>)
  {
    || Key(q) == Key(root)
    || exists m :: 0 <= m < |es| && Declares(sources, fw, Key(es[m].identity), Key(q))
  }

  /**
   * Every entry was demanded by the root or by an entry added before it, so
   * every entry is reachable from the root through declared dependencies,
   * each at its range's minimum version.
   */
  ghost predicate Reached(sources: seq<Source>, fw: Framework, root: Identity, es: seq<Info>)
  {
    forall j | 0 <= j < |es| :: Demanded(sources, fw, root, es[j].identity, es[..j])
  }

  lemma DemandedGrows(sources: seq<Source>, fw: Framework, root: Identity, q: Identity, a: seq<Info>, b: seq<Info>)
    requires a <= b && Demanded(sources, fw, root, q, a)
    ensures Demanded(sources, fw, root, q, b)
  {
    if Key(q) != Key(root) {
      var m :| 0 <= m < |a| && Declares(sources, fw, Key(a[m].identity), Key(q));
      assert b[m] == a[m];
    }
  }

  /** Adding the answer for a demanded identity keeps every entry reached. */
  lemma InsertReached(sources: seq<Source>, fw: Framework, root: Identity, p: Identity, es: seq<Info>, info: Info)
    requires Reached(sources, fw, root, es) && Demanded(sources, fw, root, p, es)
    requires Key(info.identity) == Key(p)
    ensures Reached(sources, fw, root, Insert(es, info))
  {
    if Key(info.identity) !in KeysOf(es) {
      var r := es + [info];
      forall j | 0 <= j < |r|
        ensures Demanded(sources, fw, root, r[j].identity, r[..j])
      {
        if j < |es| {
          assert r[..j] == es[..j];
        } else {
          assert r[..j] == es;
          if Key(p) != Key(root) {
            var m :| 0 <= m < |es| && Declares(sources, fw, Key(es[m].identity), Key(p));
            assert r[..j][m] == es[m];
          }
        }
      }
    }
  }

  lemma {:induction false} VisitReached(sources: seq<Source>, fw: Framework, universe: set<Identity>,
                                        root: Identity, p: Identity, es: seq<Info>)
    requires WellBehaved(sources, fw, universe) && Key(p) in universe
    requires Reached(sources, fw, root, es) && Demanded(sources, fw, root, p, es)
    ensures es <= Visit(sources, fw, universe, p, es)
    ensures Reached(sources, fw, root, Visit(sources, fw, universe, p, es))
    decreases Measure(universe, es), 2, 0, 0
  {
    if Key(p) !in KeysOf(es) {
      assert QueryRank(universe, p, es) == Measure(universe, es);
      QueryReached(sources, fw, universe, root, p, 0, es);
    }
  }

  lemma {:induction false} QueryReached(sources: seq<Source>, fw: Framework, universe: set<Identity>,
                                        root: Identity, p: Identity, i: nat, es: seq<Info>)
    requires WellBehaved(sources, fw, universe) && Key(p) in universe && i <= |sources|
    requires Reached(sources, fw, root, es) && Demanded(sources, fw, root, p, es)
    ensures es <= QuerySources(sources, fw, universe, p, i, es)
    ensures Reached(sources, fw, root, QuerySources(sources, fw, universe, p, i, es))
    decreases QueryRank(universe, p, es), 1, |sources| - i, 1
  {
    if i < |sources| {
      if sources[i](Key(p), fw).None? {
        QueryReached(sources, fw, universe, root, p, i + 1, es);
      } else {
        AnsweredReached(sources, fw, universe, root, p, i, es);
      }
    }
  }

  /** The step of QueryReached where source `i` knows `p`: its dependencies are demanded by `p`'s entry. */
  lemma {:induction false} AnsweredReached(sources: seq<Source>, fw: Framework, universe: set<Identity>,
                                           root: Identity, p: Identity, i: nat, es: seq<Info>)
    requires WellBehaved(sources, fw, universe) && Key(p) in universe && i < |sources|
    requires sources[i](Key(p), fw).Some?
    requires Reached(sources, fw, root, es) && Demanded(sources, fw, root, p, es)
    ensures es <= QuerySources(sources, fw, universe, p, i, es)
    ensures Reached(sources, fw, root, QuerySources(sources, fw, universe, p, i, es))
    decreases QueryRank(universe, p, es), 1, |sources| - i, 0
  {
    var info := sources[i](Key(p), fw).value;
    QueryAnswered(sources, fw, universe, p, i, es);
    var added := Insert(es, info);
    InsertRank(universe, p, es, info);
    InsertReached(sources, fw, root, p, es, info);
    AnswerDemands(sources, fw, root, Key(p), i, added);
    ExploreReached(sources, fw, universe, root, info.deps, 0, added);
    var explored := ExploreDeps(sources, fw, universe, info.deps, 0, added);
    GrowRank(universe, p, added, explored);
    PrefixTransitive(es, added, explored);
    DemandedGrows(sources, fw, root, p, es, explored);
    QueryReached(sources, fw, universe, root, p, i + 1, explored);
    PrefixTransitive(es, explored, QuerySources(sources, fw, universe, p, i + 1, explored));
  }

  lemma PrefixTransitive<T>(a: seq<T>, b: seq<T>, c: seq<T>)
    requires a <= b && b <= c
    ensures a <= c
  {
  }

  /** Every dependency of a source's answer for a key in the set is demanded. */
  lemma AnswerDemands(sources: seq<Source>, fw: Framework, root: Identity, k: Identity, i: nat, es: seq<Info>)
    requires i < |sources| && sources[i](k, fw).Some? && k in KeysOf(es)
    ensures forall d | d in sources[i](k, fw).value.deps :: Demanded(sources, fw, root, Target(d), es)
  {
    var m :| 0 <= m < |es| && Key(es[m].identity) == k;
    forall d | d in sources[i](k, fw).value.deps
      ensures Demanded(sources, fw, root, Target(d), es)
    {
      KeyIdempotent(Target(d));
      assert Declares(sources, fw, Key(es[m].identity), Key(Target(d)));
    }
  }

  lemma {:induction false} ExploreReached(sources: seq<Source>, fw: Framework, universe: set<Identity>,
                                          root: Identity, deps: seq<Dependency>, j: nat, es: seq<Info>)
    requires WellBehaved(sources, fw, universe)
    requires j <= |deps| && forall d | d in deps :: Key(Target(d)) in universe
    requires Reached(sources, fw, root, es)
    requires forall d | d in deps :: Demanded(sources, fw, root, Target(d), es)
    ensures es <= ExploreDeps(sources, fw, universe, deps, j, es)
    ensures Reached(sources, fw, root, ExploreDeps(sources, fw, universe, deps, j, es))
    decreases Measure(universe, es) + 1, 0, |deps| - j, 0
  {
    if j < |deps| {
      VisitReached(sources, fw, universe, root, Target(deps[j]), es);
      var visited := Visit(sources, fw, universe, Target(deps[j]), es);
      MeasureShrinks(universe, es, visited);
      forall d | d in deps
        ensures Demanded(sources, fw, root, Target(d), visited)
      {
        DemandedGrows(sources, fw, root, Target(d), es, visited);
      }
      ExploreReached(sources, fw, universe, root, deps, j + 1, visited);
    }
  }

  /** `q` is in the set, or no source knows it. */
  ghost predicate Resolved(sources: seq<Source>, fw: Framework, q: Identity, es: seq<Info>)
  {
    Key(q) in KeysOf(es) || Winner(sources, Key(q), fw).None?
  }

  /** Every dependency's target (at its minimum version) is resolved. */
  ghost predicate DepsResolved(sources: seq<Source>, fw: Framework, deps: seq<Dependency>, es: seq<Info>)
  {
    forall d | d in deps :: Resolved(sources, fw, Target(d), es)
  }

  /** The dependencies declared by EVERY source that knows `k`, not only the first, are resolved. */
  ghost predicate Expanded(sources: seq<Source>, fw: Framework, k: Identity, es: seq<Info>)
  {
    forall i | 0 <= i < |sources| && sources[i](k, fw).Some? ::
      DepsResolved(sources, fw, sources[i](k, fw).value.deps, es)
  }

  /** Every key in the set, except those still being expanded, is expanded. */
  ghost predicate ClosedExcept(sources: seq<Source>, fw: Framework, universe: set<Identity>,
                               es: seq<Info>, pending: set<Identity>)
  {
    forall k | k in universe && k in KeysOf(es) && k !in pending :: Expanded(sources, fw, k, es)
  }

  lemma ResolvedGrows(sources: seq<Source>, fw: Framework, a: seq<Info>, b: seq<Info>)
    requires KeysOf(a) <= KeysOf(b)
    ensures forall q :: Resolved(sources, fw, q, a) ==> Resolved(sources, fw, q, b)
    ensures forall deps :: DepsResolved(sources, fw, deps, a) ==> DepsResolved(sources, fw, deps, b)
    ensures forall k :: Expanded(sources, fw, k, a) ==> Expanded(sources, fw, k, b)
  {
  }

  lemma ClosedGrows(sources: seq<Source>, fw: Framework, universe: set<Identity>,
                    a: seq<Info>, b: seq<Info>, pending: set<Identity>)
    requires ClosedExcept(sources, fw, universe, a, pending)
    requires KeysOf(a) <= KeysOf(b) && KeysOf(b) - KeysOf(a) <= pending
    ensures ClosedExcept(sources, fw, universe, b, pending)
  {
    ResolvedGrows(sources, fw, a, b);
  }

  lemma {:induction false} VisitClosed(sources: seq<Source>, fw: Framework, universe: set<Identity>,
                                       p: Identity, es: seq<Info>, pending: set<Identity>)
    requires WellBehaved(sources, fw, universe) && Key(p) in universe
    requires ClosedExcept(sources, fw, universe, es, pending)
    ensures ClosedExcept(sources, fw, universe, Visit(sources, fw, universe, p, es), pending)
    ensures Resolved(sources, fw, p, Visit(sources, fw, universe, p, es))
    decreases Measure(universe, es), 2, 0, 0
  {
    if Key(p) !in KeysOf(es) {
      assert QueryRank(universe, p, es) == Measure(universe, es);
      var k := Key(p);
      QueryClosed(sources, fw, universe, p, 0, es, pending + {k});
      var r := QuerySources(sources, fw, universe, p, 0, es);
      assert Queried(sources, fw, universe, p, r, pending + {k});
      forall k' | k' in universe && k' in KeysOf(r) && k' !in pending
        ensures Expanded(sources, fw, k', r)
      {
        if k' != k {
          assert k' !in pending + {k};
        }
      }
    }
  }

  /** What holds while sources `i`, `i+1`, ... remain to be asked for `p`. */
  ghost predicate Querying(sources: seq<Source>, fw: Framework, universe: set<Identity>,
                           p: Identity, i: nat, es: seq<Info>, pending: set<Identity>)
  {
    && Key(p) in pending
    && ClosedExcept(sources, fw, universe, es, pending)
    && (forall i' | 0 <= i' < i && i' < |sources| && sources[i'](Key(p), fw).Some? ::
          DepsResolved(sources, fw, sources[i'](Key(p), fw).value.deps, es))
    && (FirstSource(sources, Key(p), fw, 0) < i ==> Key(p) in KeysOf(es))
  }

  /** What holds once every source has been asked for `p` and every answer explored. */
  ghost predicate Queried(sources: seq<Source>, fw: Framework, universe: set<Identity>,
                          p: Identity, es: seq<Info>, pending: set<Identity>)
  {
    && ClosedExcept(sources, fw, universe, es, pending)
    && Expanded(sources, fw, Key(p), es)
    && Resolved(sources, fw, p, es)
  }

  lemma {:induction false} QueryClosed(sources: seq<Source>, fw: Framework, universe: set<Identity>,
                                       p: Identity, i: nat, es: seq<Info>, pending: set<Identity>)
    requires WellBehaved(sources, fw, universe) && Key(p) in universe && i <= |sources|
    requires Querying(sources, fw, universe, p, i, es, pending)
    ensures Queried(sources, fw, universe, p, QuerySources(sources, fw, universe, p, i, es), pending)
    decreases QueryRank(universe, p, es), 1, |sources| - i, 1
  {
    var k := Key(p);
    if i == |sources| {
      if FirstSource(sources, k, fw, 0) == |sources| {
        assert Winner(sources, k, fw).None?;
      }
    } else if sources[i](k, fw).None? {
      QueryClosed(sources, fw, universe, p, i + 1, es, pending);
    } else {
      AnsweredClosed(sources, fw, universe, p, i, es, pending);
    }
  }

  /** The step of QueryClosed where source `i` knows `p`. */
  lemma {:induction false} AnsweredClosed(sources: seq<Source>, fw: Framework, universe: set<Identity>,
                                          p: Identity, i: nat, es: seq<Info>, pending: set<Identity>)
    requires WellBehaved(sources, fw, universe) && Key(p) in universe && i < |sources|
    requires sources[i](Key(p), fw).Some?
    requires Querying(sources, fw, universe, p, i, es, pending)
    ensures Queried(sources, fw, universe, p, QuerySources(sources, fw, universe, p, i, es), pending)
    decreases QueryRank(universe, p, es), 1, |sources| - i, 0
  {
    var info := sources[i](Key(p), fw).value;
    var added := Insert(es, info);
    var explored := ExploreDeps(sources, fw, universe, info.deps, 0, added);
    QueryAnswered(sources, fw, universe, p, i, es);
    AddedClosed(sources, fw, universe, p, i, es, pending);
    ExploreClosed(sources, fw, universe, info.deps, 0, added, pending);
    GrowRank(universe, p, added, explored);
    ExploredClosed(sources, fw, universe, p, i, es, explored, pending);
    QueryClosed(sources, fw, universe, p, i + 1, explored, pending);
  }

  /** Adding source `i`'s answer for `p` keeps the set closed, `p` being pending. */
  lemma AddedClosed(sources: seq<Source>, fw: Framework, universe: set<Identity>,
                    p: Identity, i: nat, es: seq<Info>, pending: set<Identity>)
    requires WellBehaved(sources, fw, universe) && Key(p) in universe && i < |sources|
    requires sources[i](Key(p), fw).Some?
    requires Querying(sources, fw, universe, p, i, es, pending)
    ensures var info := sources[i](Key(p), fw).value;
            && ClosedExcept(sources, fw, universe, Insert(es, info), pending)
            && DepsResolved(sources, fw, info.deps[..0], Insert(es, info))
            && (forall d | d in info.deps :: Key(Target(d)) in universe)
            && Measure(universe, Insert(es, info)) + 1 <= QueryRank(universe, p, es)
            && KeysOf(Insert(es, info)) == KeysOf(es) + {Key(p)}
  {
    var info := sources[i](Key(p), fw).value;
    AnswerFacts(sources, fw, universe, i, Key(p));
    InsertRank(universe, p, es, info);
    ClosedGrows(sources, fw, universe, es, Insert(es, info), pending);
    assert info.deps[..0] == [];
  }

  /** After source `i`'s answer has been added and its dependencies explored, asking goes on at `i+1`. */
  lemma ExploredClosed(sources: seq<Source>, fw: Framework, universe: set<Identity>,
                       p: Identity, i: nat, es: seq<Info>, explored: seq<Info>, pending: set<Identity>)
    requires i < |sources| && sources[i](Key(p), fw).Some?
    requires Querying(sources, fw, universe, p, i, es, pending)
    requires KeysOf(es) + {Key(p)} <= KeysOf(explored)
    requires ClosedExcept(sources, fw, universe, explored, pending)
    requires DepsResolved(sources, fw, sources[i](Key(p), fw).value.deps, explored)
    ensures Querying(sources, fw, universe, p, i + 1, explored, pending)
  {
    var k := Key(p);
    ResolvedGrows(sources, fw, es, explored);
    assert forall i' | 0 <= i' < i + 1 && i' < |sources| && sources[i'](k, fw).Some? ::
             DepsResolved(sources, fw, sources[i'](k, fw).value.deps, explored);
  }

  lemma {:induction false} ExploreClosed(sources: seq<Source>, fw: Framework, universe: set<Identity>,
                                         deps: seq<Dependency>, j: nat, es: seq<Info>, pending: set<Identity>)
    requires WellBehaved(sources, fw, universe)
    requires j <= |deps| && forall d | d in deps :: Key(Target(d)) in universe
    requires ClosedExcept(sources, fw, universe, es, pending)
    requires DepsResolved(sources, fw, deps[..j], es)
    ensures ClosedExcept(sources, fw, universe, ExploreDeps(sources, fw, universe, deps, j, es), pending)
    ensures DepsResolved(sources, fw, deps, ExploreDeps(sources, fw, universe, deps, j, es))
    decreases Measure(universe, es) + 1, 0, |deps| - j, 0
  {
    if j == |deps| {
      assert deps[..j] == deps;
    } else {
      VisitClosed(sources, fw, universe, Target(deps[j]), es, pending);
      var visited := Visit(sources, fw, universe, Target(deps[j]), es);
      MeasureShrinks(universe, es, visited);
      ResolvedGrows(sources, fw, es, visited);
      assert deps[..j + 1] == deps[..j] + [deps[j]];
      ExploreClosed(sources, fw, universe, deps, j + 1, visited, pending);
    }
  }

  /** A package no source knows leaves the set unchanged (and absent). */
  lemma {:induction false} QueryUnknown(sources: seq<Source>, fw: Framework, universe: set<Identity>,
                                        p: Identity, i: nat, es: seq<Info>)
    requires WellBehaved(sources, fw, universe) && Key(p) in universe && i <= |sources|
    requires Winner(sources, Key(p), fw).None?
    ensures QuerySources(sources, fw, universe, p, i, es) == es
    decreases |sources| - i
  {
    if i < |sources| {
      QueryUnknown(sources, fw, universe, p, i + 1, es);
    }
  }

  lemma VisitUnknown(sources: seq<Source>, fw: Framework, universe: set<Identity>, p: Identity, es: seq<Info>)
    requires WellBehaved(sources, fw, universe) && Key(p) in universe
    requires Winner(sources, Key(p), fw).None?
    ensures Visit(sources, fw, universe, p, es) == es
  {
    QueryUnknown(sources, fw, universe, p, 0, es);
  }

  /**
   * Resolution from the empty set: at most one entry per identity; each entry
   * is the answer of the first source that knows its identity (so its
   * dependency list is that source's); the root is present exactly when some
   * source knows it; and for every entry, the dependencies declared by every
   * source that knows it are present at their minimum versions unless no
   * source knows them; and nothing else is present: every entry is the root
   * or the minimum-version target of a dependency declared for an entry
   * added before it.
   */
  lemma ResolveCorrect(sources: seq<Source>, fw: Framework, universe: set<Identity>, root: Identity)
    requires WellBehaved(sources, fw, universe) && Key(root) in universe
    ensures DistinctKeys(Resolve(sources, fw, universe, root))
    ensures KeysOf(Resolve(sources, fw, universe, root)) <= universe
    ensures forall e | e in Resolve(sources, fw, universe, root) ::
              Winner(sources, Key(e.identity), fw) == Some(e)
    ensures Key(root) in KeysOf(Resolve(sources, fw, universe, root)) <==> Winner(sources, Key(root), fw).Some?
    ensures forall k | k in KeysOf(Resolve(sources, fw, universe, root)) ::
              Expanded(sources, fw, k, Resolve(sources, fw, universe, root))
    ensures Reached(sources, fw, root, Resolve(sources, fw, universe, root))
  {
    var r := Resolve(sources, fw, universe, root);
    VisitReached(sources, fw, universe, root, root, []);
    VisitSound(sources, fw, universe, root, []);
    VisitClosed(sources, fw, universe, root, [], {});
    if Key(root) in KeysOf(r) {
      var e :| e in r && Key(e.identity) == Key(root);
      assert Winner(sources, Key(root), fw) == Some(e);
    }
  }
}
